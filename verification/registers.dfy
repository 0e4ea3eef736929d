/** Register names: xN, the names of the calling convention, and pc. */
module RegisterNames {
  import opened Words

  /** kRegisterAliases. */
  const ABI_NAMES: seq<string> := [
    "zero", "ra", "sp", "gp", "tp", "t0", "t1", "t2", "s0", "s1", "a0",
    "a1", "a2", "a3", "a4", "a5", "a6", "a7", "s2", "s3", "s4", "s5",
    "s6", "s7", "s8", "s9", "s10", "s11", "t3", "t4", "t5", "t6"]

  /** The name of register n in the calling convention. */
  function AbiName(n: nat): string
    requires n < 32
  {
    ABI_NAMES[n]
  }

  const PC_NAME := "pc"
  const PC_NUMBER := 32

  function Digit(d: nat): char
    requires d < 10
  {
    '0' + d as char
  }

  /** A number below 100 in decimal. */
  function Decimal(n: nat): string
    requires n < 100
  {
    if n < 10 then [Digit(n)] else [Digit(n / 10), Digit(n % 10)]
  }

  function XName(n: nat): string
    requires n < 32
  {
    "x" + Decimal(n)
  }

  // ---------------------------------------------------------------- reading a name

  /** The number a suffix spells in decimal without a leading zero. */
  function Suffix(s: string): Option<nat>
  {
    if |s| == 2 && '0' <= s[1] <= '9' then Some(s[1] as int - '0' as int)
    else if |s| == 3 && '1' <= s[1] <= '9' && '0' <= s[2] <= '9' then
      Some(10 * (s[1] as int - '0' as int) + (s[2] as int - '0' as int))
    else None
  }

  /** The register a name stands for, from the calling convention: the temporaries t0-t2 and
      t3-t6 are x5-x7 and x28-x31, the saved registers s0-s1 and s2-s11 are x8-x9 and x18-x27,
      and the arguments a0-a7 are x10-x17. */
  function NumberOf(s: string): Option<nat>
  {
    if |s| < 2 then None
    else if s[0] == 'x' then
      (match Suffix(s) case Some(n) => if n < 32 then Some(n) else None case None => None)
    else if s[0] == 't' then
      (match Suffix(s)
       case Some(n) => if n < 3 then Some(5 + n) else if n < 7 then Some(25 + n) else None
       case None => if s == "tp" then Some(4) else None)
    else if s[0] == 's' then
      (match Suffix(s)
       case Some(n) => if n < 2 then Some(8 + n) else if n < 12 then Some(16 + n) else None
       case None => if s == "sp" then Some(2) else None)
    else if s[0] == 'a' then
      (match Suffix(s) case Some(n) => if n < 8 then Some(10 + n) else None case None => None)
    else if s == "zero" then Some(0)
    else if s == "ra" then Some(1)
    else if s == "gp" then Some(3)
    else if s == PC_NAME then Some(PC_NUMBER)
    else None
  }

  lemma XNameRead(n: nat)
    requires n < 32
    ensures NumberOf(XName(n)) == Some(n)
  {
  }

  lemma AbiNamesLow(n: nat)
    requires n < 16
    ensures NumberOf(AbiName(n)) == Some(n)
  {
    if n < 8 {
      if n < 4 { if n < 2 {} else {} } else { if n < 6 {} else {} }
    } else {
      if n < 12 { if n < 10 {} else {} } else { if n < 14 {} else {} }
    }
  }

  lemma AbiNamesHigh(n: nat)
    requires 16 <= n < 32
    ensures NumberOf(AbiName(n)) == Some(n)
  {
    if n < 24 {
      if n < 20 { if n < 18 {} else {} } else { if n < 22 {} else {} }
    } else {
      if n < 28 { if n < 26 {} else {} } else { if n < 30 {} else {} }
    }
  }

  /** Each xN and its alias are names of register N. */
  lemma NamesOfRegister(n: nat)
    requires n < 32
    ensures NumberOf(XName(n)) == Some(n) && NumberOf(AbiName(n)) == Some(n)
  {
    hide NumberOf, XName;
    XNameRead(n);
    if n < 16 { AbiNamesLow(n); } else { AbiNamesHigh(n); }
  }

  /** Different registers have no name in common. */
  lemma NamesDistinct(n: nat, k: nat)
    requires n < 32 && k < 32 && n != k
    ensures {XName(n), AbiName(n), PC_NAME} !! {XName(k), AbiName(k)}
  {
    NamesOfRegister(n);
    NamesOfRegister(k);
  }

  lemma SuffixSpells(s: string)
    requires Suffix(s).Some?
    ensures Suffix(s).value < 100 && s == [s[0]] + Decimal(Suffix(s).value)
  {
  }

  lemma FamilyT(n: nat)
    requires n < 7
    ensures AbiName(if n < 3 then 5 + n else 25 + n) == "t" + Decimal(n)
  {
    if n < 3 {} else {}
  }

  lemma FamilyS(n: nat)
    requires n < 12
    ensures AbiName(if n < 2 then 8 + n else 16 + n) == "s" + Decimal(n)
  {
    if n < 2 {} else if n < 7 {} else {}
  }

  lemma FamilyA(n: nat)
    requires n < 8
    ensures AbiName(10 + n) == "a" + Decimal(n)
  {
    if n < 4 {} else {}
  }

  /** A register has no names but its xN and its alias. */
  lemma NoOtherName(s: string)
    requires NumberOf(s).Some? && s != PC_NAME
    ensures var n := NumberOf(s).value; n < 32 && (s == XName(n) || s == AbiName(n))
  {
    hide AbiName, Suffix, Decimal;
    if Suffix(s).Some? {
      var n := Suffix(s).value;
      SuffixSpells(s);
      if s[0] == 't' && n < 7 { FamilyT(n); }
      if s[0] == 's' && n < 12 { FamilyS(n); }
      if s[0] == 'a' && n < 8 { FamilyA(n); }
    }
    PlainNames();
  }

  lemma PlainNames()
    ensures AbiName(0) == "zero" && AbiName(1) == "ra" && AbiName(2) == "sp" && AbiName(3) == "gp" && AbiName(4) == "tp"
  {
  }

  lemma OnlyPc(s: string)
    ensures NumberOf(s) == Some(PC_NUMBER) <==> s == PC_NAME
  {
  }

  /** The table built so far gives every name the register it stands for. */
  ghost predicate Faithful(registers: map<string, nat>, n: nat)
    requires n <= 32
  {
    && (forall s :: s in registers ==> NumberOf(s) == Some(registers[s]))
    && PC_NAME in registers
    && (forall k :: 0 <= k < n ==> XName(k) in registers && AbiName(k) in registers)
  }

  lemma FaithfulAtFirst()
    ensures Faithful(map[PC_NAME := PC_NUMBER], 0)
  {
  }

  lemma FaithfulWithNext(registers: map<string, nat>, n: nat)
    requires n < 32 && Faithful(registers, n)
    ensures Faithful(registers[XName(n) := n][AbiName(n) := n], n + 1)
  {
    hide NumberOf, XName, AbiName;
    NamesOfRegister(n);
  }

  lemma NumberBound(s: string)
    ensures NumberOf(s).Some? ==> NumberOf(s).value <= PC_NUMBER
  {
  }

  /** The finished table has an entry for exactly the names of the registers. */
  lemma TableComplete(registers: map<string, nat>, s: string)
    requires Faithful(registers, 32)
    ensures s in registers <==> NumberOf(s).Some?
    ensures s in registers ==> Some(registers[s]) == NumberOf(s)
  {
    hide NumberOf, XName, AbiName;
    if NumberOf(s).Some? && s != PC_NAME { NoOtherName(s); }
  }
}
