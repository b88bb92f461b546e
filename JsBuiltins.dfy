/** The JavaScript built-ins that the blog's server and client call, with the
    ECMAScript (2023) behaviour the code relies on. Strings are sequences of
    Unicode scalar values. */
module JsBuiltins {

  datatype Option<+T> = None | Some(value: T) {
    function GetOr(default: T): T {
      if Some? then value else default
    }
  }

  /** `x || fallback` for a string that may be undefined: undefined and the
      empty string are the falsy strings. */
  function OrElse(x: Option<string>, fallback: string): (r: string)
    ensures x.Some? && x.value != "" ==> r == x.value
    ensures x.None? || x.value == "" ==> r == fallback
  {
    if x.Some? && x.value != "" then x.value else fallback
  }

  function Abs(n: int): (r: nat)
    ensures r == n || r == -n
  {
    if n < 0 then -n else n
  }

  function Min(a: int, b: int): int {
    if a <= b then a else b
  }

  // ---------------------------------------------------------------------------
  // String.prototype.trim
  // ---------------------------------------------------------------------------

  /** WhiteSpace or LineTerminator (sections 12.2 and 12.3): the code points
      that trim removes and that parseInt skips. */
  predicate IsSpace(c: char) {
    c == '\t' || c == '\n' || c == '\U{B}' || c == '\U{C}' || c == '\r' || c == ' '
    || c == '\U{A0}' || c == '\U{1680}' || ('\U{2000}' <= c <= '\U{200A}')
    || c == '\U{2028}' || c == '\U{2029}' || c == '\U{202F}' || c == '\U{205F}'
    || c == '\U{3000}' || c == '\U{FEFF}'
  }

  /** Neither the first nor the last character of s is white space. */
  predicate Trimmed(s: string) {
    s == [] || (!IsSpace(s[0]) && !IsSpace(s[|s| - 1]))
  }

  function TrimStart(s: string): (r: string)
    ensures |r| <= |s| && r == s[|s| - |r|..]
    ensures forall i :: 0 <= i < |s| - |r| ==> IsSpace(s[i])
    ensures r != [] ==> !IsSpace(r[0])
  {
    if s != [] && IsSpace(s[0]) then TrimStart(s[1..]) else s
  }

  function TrimEnd(s: string): (r: string)
    ensures |r| <= |s| && r == s[..|r|]
    ensures forall i :: |r| <= i < |s| ==> IsSpace(s[i])
    ensures r != [] ==> !IsSpace(r[|r| - 1])
  {
    if s != [] && IsSpace(s[|s| - 1]) then TrimEnd(s[..|s| - 1]) else s
  }

  /** Every character of s is white space. */
  predicate AllBlank(s: string) {
    forall i :: 0 <= i < |s| ==> IsSpace(s[i])
  }

  /** String.prototype.trim: s without its leading and trailing white space. */
  function Trim(s: string): (r: string)
    ensures |r| <= |s|
    ensures Trimmed(r)
    ensures Trimmed(s) ==> r == s
  {
    TrimEnd(TrimStart(s))
  }

  /** trim removes only white space, and only at the two ends: s is the
      trimmed string with blanks before and after it. Stated apart from Trim
      so that the witnesses do not enter every proof that trims a string. */
  lemma TrimContent(s: string)
    ensures exists a, b :: s == a + Trim(s) + b && AllBlank(a) && AllBlank(b)
  {
    TrimSlices(s, TrimStart(s), Trim(s));
  }

  /** Trimming the start and then the end keeps a slice of s with only blanks around it. */
  lemma TrimSlices(s: string, t: string, r: string)
    requires |t| <= |s| && t == s[|s| - |t|..]
    requires forall i :: 0 <= i < |s| - |t| ==> IsSpace(s[i])
    requires |r| <= |t| && r == t[..|r|]
    requires forall i :: |r| <= i < |t| ==> IsSpace(t[i])
    requires Trimmed(r)
    ensures |r| <= |s|
    ensures Trimmed(s) ==> r == s
    ensures var k := |s| - |t|;
      s == s[..k] + r + s[k + |r|..] && AllBlank(s[..k]) && AllBlank(s[k + |r|..])
  {
    var k := |s| - |t|;
    if Trimmed(s) && s != [] {
      assert !IsSpace(s[0]);
      assert t == s;
      assert !IsSpace(t[|t| - 1]);
    }
    var before, after := s[..k], s[k + |r|..];
    forall i | 0 <= i < |before|
      ensures IsSpace(before[i])
    {
      assert before[i] == s[i];
    }
    forall i | 0 <= i < |after|
      ensures IsSpace(after[i])
    {
      assert after[i] == t[|r| + i];
    }
    assert s == before + r + after;
  }

  lemma TrimIdempotent(s: string)
    ensures Trim(Trim(s)) == Trim(s)
  {
  }

  lemma {:induction false} TrimStartLeadingSpace(c: char, s: string)
    requires IsSpace(c)
    ensures TrimStart([c] + s) == TrimStart(s)
  {
    assert ([c] + s)[1..] == s;
  }

  /** trim ignores white space in front of a string. */
  lemma TrimLeadingSpace(c: char, s: string)
    requires IsSpace(c)
    ensures Trim([c] + s) == Trim(s)
  {
    TrimStartLeadingSpace(c, s);
  }

  // ---------------------------------------------------------------------------
  // String.prototype.toLowerCase, restricted to the ASCII letters
  // ---------------------------------------------------------------------------

  function LowerChar(c: char): char {
    if 'A' <= c <= 'Z' then (c as int + 32) as char else c
  }

  function ToLower(s: string): (r: string)
    ensures |r| == |s|
    ensures forall i :: 0 <= i < |s| ==> r[i] == LowerChar(s[i])
  {
    if s == [] then [] else [LowerChar(s[0])] + ToLower(s[1..])
  }

  predicate IsLower(s: string) {
    forall i :: 0 <= i < |s| ==> !('A' <= s[i] <= 'Z')
  }

  lemma ToLowerIsLower(s: string)
    ensures IsLower(ToLower(s))
  {
  }

  lemma ToLowerOfLower(s: string)
    requires IsLower(s)
    ensures ToLower(s) == s
  {
  }

  lemma LowerCharKeepsSpace(c: char)
    ensures IsSpace(LowerChar(c)) == IsSpace(c)
  {
  }

  lemma {:induction false} TrimStartToLower(s: string)
    ensures TrimStart(ToLower(s)) == ToLower(TrimStart(s))
    decreases |s|
  {
    if s != [] {
      var l := ToLower(s);
      assert l[0] == LowerChar(s[0]) && l[1..] == ToLower(s[1..]);
      LowerCharKeepsSpace(s[0]);
      if IsSpace(s[0]) {
        TrimStartToLower(s[1..]);
      }
    }
  }

  lemma {:induction false} TrimEndToLower(s: string)
    ensures TrimEnd(ToLower(s)) == ToLower(TrimEnd(s))
    decreases |s|
  {
    if s != [] {
      var n := |s| - 1;
      var l := ToLower(s);
      ToLowerInit(s);
      LowerCharKeepsSpace(s[n]);
      if IsSpace(s[n]) {
        TrimEndToLower(s[..n]);
        assert TrimEnd(l) == TrimEnd(l[..n]);
        assert TrimEnd(s) == TrimEnd(s[..n]);
      }
    }
  }

  lemma ToLowerInit(s: string)
    requires s != []
    ensures ToLower(s)[..|s| - 1] == ToLower(s[..|s| - 1])
    ensures ToLower(s)[|s| - 1] == LowerChar(s[|s| - 1])
  {
    var n := |s| - 1;
    var l := ToLower(s);
    var a := l[..n];
    var b := ToLower(s[..n]);
    assert |a| == n == |b|;
    forall i | 0 <= i < n ensures a[i] == b[i] {
      calc {
        a[i];
        l[i];
        LowerChar(s[i]);
        { assert s[..n][i] == s[i]; }
        LowerChar(s[..n][i]);
        b[i];
      }
    }
    assert a == b;
  }

  /** Lowercasing and trimming commute, so the order in which a schema applies
      the two setters does not matter. */
  lemma TrimToLower(s: string)
    ensures Trim(ToLower(s)) == ToLower(Trim(s))
  {
    TrimStartToLower(s);
    TrimEndToLower(TrimStart(s));
  }

  // ---------------------------------------------------------------------------
  // String.prototype.split with a one-character separator, Array.prototype.join
  // ---------------------------------------------------------------------------

  function IndexOfChar(s: string, c: char): (r: Option<nat>)
    ensures r.None? <==> c !in s
    ensures r.Some? ==> r.value < |s| && s[r.value] == c && c !in s[..r.value]
  {
    if s == [] then None
    else if s[0] == c then Some(0)
    else
      match IndexOfChar(s[1..], c)
      case None => None
      case Some(i) => assert s[1..][..i] == s[1..i + 1]; Some(i + 1)
  }

  /** s.split(sep): the pieces between the separators, empty ones included. */
  function Split(s: string, sep: char): (parts: seq<string>)
    ensures |parts| >= 1
    ensures forall i :: 0 <= i < |parts| ==> sep !in parts[i]
    decreases |s|
  {
    match IndexOfChar(s, sep)
    case None => [s]
    case Some(i) => [s[..i]] + Split(s[i + 1..], sep)
  }

  /** parts.join(sep) */
  function Join(parts: seq<string>, sep: string): (r: string)
    ensures parts == [] ==> r == ""
    ensures |parts| == 1 ==> r == parts[0]
  {
    if |parts| == 0 then ""
    else if |parts| == 1 then parts[0]
    else parts[0] + sep + Join(parts[1..], sep)
  }

  /** A string without the separator splits into itself alone. */
  lemma SplitWhole(s: string, sep: char)
    requires sep !in s
    ensures Split(s, sep) == [s]
  {
  }

  /** Splitting at the first separator. */
  lemma SplitAtSeparator(a: string, sep: char, b: string)
    requires sep !in a
    ensures Split(a + [sep] + b, sep) == [a] + Split(b, sep)
  {
    var s := a + [sep] + b;
    assert s[..|a|] == a && s[|a|] == sep && s[|a| + 1..] == b;
    IndexOfCharAt(s, sep, |a|);
  }

  /** split undoes join: pieces without the separator, joined with it, split
      back into the same pieces. */
  lemma {:induction false} SplitJoin(parts: seq<string>, sep: char)
    requires parts != []
    requires forall i :: 0 <= i < |parts| ==> sep !in parts[i]
    ensures Split(Join(parts, [sep]), sep) == parts
    decreases |parts|
  {
    if |parts| == 1 {
      SplitWhole(parts[0], sep);
    } else {
      SplitJoin(parts[1..], sep);
      SplitAtSeparator(parts[0], sep, Join(parts[1..], [sep]));
      assert parts == [parts[0]] + parts[1..];
    }
  }

  /** The first occurrence of c is at i when s[i] is c and s[..i] holds no c. */
  lemma IndexOfCharAt(s: string, c: char, i: nat)
    requires i < |s| && s[i] == c && c !in s[..i]
    ensures IndexOfChar(s, c) == Some(i)
  {
    var r := IndexOfChar(s, c);
    assert c in s by {
      assert s[i] == c;
    }
    assert forall j :: 0 <= j < i ==> s[..i][j] == s[j];
    assert forall j :: 0 <= j < r.value ==> s[..r.value][j] == s[j];
  }

  /** Split only looks at the separators: a character that is not one is
      glued to the first piece. */
  lemma SplitCons(c: char, s: string, sep: char)
    requires c != sep
    ensures var p := Split(s, sep); Split([c] + s, sep) == [[c] + p[0]] + p[1..]
  {
    var t := [c] + s;
    assert t[1..] == s;
    match IndexOfChar(s, sep)
    case None =>
    case Some(i) =>
      assert t[..i + 1] == [c] + s[..i];
      assert t[i + 2..] == s[i + 1..];
  }

  // ---------------------------------------------------------------------------
  // String.prototype.replace with a string pattern: the first occurrence only
  // ---------------------------------------------------------------------------

  predicate OccursAt(s: string, pat: string, i: nat) {
    i + |pat| <= |s| && s[i..i + |pat|] == pat
  }

  /** The first index at or after `from` where pat occurs in s. */
  function IndexOf(s: string, pat: string, from: nat): (r: Option<nat>)
    requires from <= |s|
    ensures r.Some? ==> from <= r.value && OccursAt(s, pat, r.value)
    ensures r.Some? ==> forall j :: from <= j < r.value ==> !OccursAt(s, pat, j)
    ensures r.None? ==> forall j :: from <= j <= |s| ==> !OccursAt(s, pat, j)
    decreases |s| - from
  {
    if OccursAt(s, pat, from) then Some(from)
    else if from == |s| then None
    else IndexOf(s, pat, from + 1)
  }

  /** s.replace(pat, rep) */
  function ReplaceFirst(s: string, pat: string, rep: string): (r: string)
    ensures (forall j :: 0 <= j <= |s| ==> !OccursAt(s, pat, j)) ==> r == s
    ensures forall i: nat :: OccursAt(s, pat, i) && (forall j :: 0 <= j < i ==> !OccursAt(s, pat, j)) ==>
      r == s[..i] + rep + s[i + |pat|..]
  {
    match IndexOf(s, pat, 0)
    case None => s
    case Some(i) => s[..i] + rep + s[i + |pat|..]
  }

  /** Only the first occurrence is replaced: a pattern in front is cut off and
      the rest is left as it is, whatever it contains. */
  lemma ReplaceFirstAtFront(pat: string, t: string)
    ensures ReplaceFirst(pat + t, pat, "") == t
  {
    var s := pat + t;
    assert OccursAt(s, pat, 0) by { assert s[..|pat|] == pat; }
    assert s[|pat|..] == t;
  }

  // ---------------------------------------------------------------------------
  // parseInt(string) with the radix omitted (section 19.2.5)
  // ---------------------------------------------------------------------------

  /** The value of c as a digit of the given radix, if it is one. */
  function DigitOf(c: char, radix: nat): (d: Option<nat>)
    ensures d.Some? ==> d.value < radix
  {
    var v := if '0' <= c <= '9' then c as int - '0' as int
             else if 'a' <= c <= 'z' then c as int - 'a' as int + 10
             else if 'A' <= c <= 'Z' then c as int - 'A' as int + 10
             else 36;
    if v < radix then Some(v) else None
  }

  predicate AllDigits(z: string, radix: nat) {
    forall i :: 0 <= i < |z| ==> DigitOf(z[i], radix).Some?
  }

  /** The longest prefix of s made of digits of the radix. */
  function DigitPrefix(s: string, radix: nat): (z: string)
    ensures |z| <= |s| && z == s[..|z|] && AllDigits(z, radix)
    ensures |z| < |s| ==> DigitOf(s[|z|], radix).None?
  {
    if s != [] && DigitOf(s[0], radix).Some? then [s[0]] + DigitPrefix(s[1..], radix) else []
  }

  /** The number a digit string denotes in the radix. */
  function DigitsValue(z: string, radix: nat): nat
    requires AllDigits(z, radix)
  {
    if z == [] then 0
    else DigitsValue(z[..|z| - 1], radix) * radix + DigitOf(z[|z| - 1], radix).value
  }

  /** s starts with the hexadecimal prefix 0x or 0X. */
  predicate HexPrefix(s: string)
    requires |s| >= 2
  {
    s[0] == '0' && (s[1] == 'x' || s[1] == 'X')
  }

  /** parseInt(s); None stands for NaN. -0 and +0 are both 0 here: both are
      falsy, which is all the callers ask of them. */
  function ParseInt(s: string): (r: Option<int>)
    ensures TrimStart(s) == [] ==> r.None?
    ensures r.Some? && r.value < 0 ==> TrimStart(s)[0] == '-'
  {
    ParseNumber(TrimStart(s))
  }

  /** parseInt after the leading white space: an optional sign, then the
      longest run of digits, in radix 16 after 0x or 0X and 10 otherwise. */
  function ParseNumber(t: string): (r: Option<int>)
    ensures t == [] ==> r.None?
    ensures r.Some? && r.value < 0 ==> t[0] == '-'
  {
    var negative := t != [] && t[0] == '-';
    var u := if t != [] && (t[0] == '-' || t[0] == '+') then t[1..] else t;
    var hex := |u| >= 2 && HexPrefix(u);
    var radix := if hex then 16 else 10;
    var z := DigitPrefix(if hex then u[2..] else u, radix);
    if z == [] then None
    else
      var n: int := DigitsValue(z, radix);
      Some(if negative then -n else n)
  }

  /** `parseInt(x) || fallback` where x is a query parameter that may be missing
      (parseInt(undefined) is NaN). */
  function ParseIntOr(x: Option<string>, fallback: int): (r: int)
    ensures x.Some? && ParseInt(x.value).Some? && ParseInt(x.value).value != 0 ==> r == ParseInt(x.value).value
    ensures x.None? || ParseInt(x.value).None? || ParseInt(x.value) == Some(0) ==> r == fallback
  {
    if x.None? then fallback
    else
      match ParseInt(x.value)
      case None => fallback
      case Some(n) => if n == 0 then fallback else n
  }

  function DigitChar(d: nat): (c: char)
    requires d < 10
    ensures DigitOf(c, 10) == Some(d)
  {
    ('0' as int + d) as char
  }

  /** String(n) for a natural number: its decimal digits, no leading zero. */
  function Decimal(n: nat): (s: string)
    ensures |s| >= 1 && AllDigits(s, 10)
    ensures n >= 10 ==> s[0] != '0'
  {
    if n < 10 then [DigitChar(n)] else Decimal(n / 10) + [DigitChar(n % 10)]
  }

  lemma {:induction false} DecimalValue(n: nat)
    ensures DigitsValue(Decimal(n), 10) == n
  {
    if n >= 10 {
      var s := Decimal(n);
      assert s[..|s| - 1] == Decimal(n / 10);
      DecimalValue(n / 10);
    }
  }

  lemma DecimalDigitIsNumeral(c: char)
    requires DigitOf(c, 10).Some?
    ensures '0' <= c <= '9'
  {
  }

  /** parseInt of a non-empty string of decimal digits is their value. */
  lemma ParseDigits(z: string)
    requires z != [] && AllDigits(z, 10)
    ensures ParseInt(z) == Some(DigitsValue(z, 10))
  {
    DecimalDigitIsNumeral(z[0]);
    assert !IsSpace(z[0]);
    assert TrimStart(z) == z;
    assert !(z[0] == '-' || z[0] == '+');
    assert !(|z| >= 2 && HexPrefix(z)) by {
      if |z| >= 2 {
        DecimalDigitIsNumeral(z[1]);
      }
    }
    DigitPrefixOfDigits(z, 10);
  }

  /** parseInt stops at the first character that is not a digit: a decimal
      numeral followed by anything else reads as the numeral, unless the
      numeral is "0" and what follows makes it a 0x prefix. */
  lemma ParseDigitsThenRest(z: string, rest: string)
    requires z != [] && AllDigits(z, 10)
    requires rest == [] || DigitOf(rest[0], 10).None?
    requires !(z == "0" && rest != [] && (rest[0] == 'x' || rest[0] == 'X'))
    ensures ParseInt(z + rest) == Some(DigitsValue(z, 10))
  {
    var t := z + rest;
    assert t[0] == z[0];
    DecimalDigitIsNumeral(z[0]);
    assert !IsSpace(t[0]);
    assert TrimStart(t) == t;
    assert !(t[0] == '-' || t[0] == '+');
    assert !(|t| >= 2 && HexPrefix(t)) by {
      if |z| >= 2 {
        assert t[1] == z[1];
        DecimalDigitIsNumeral(z[1]);
      }
    }
    DigitPrefixThenRest(z, rest, 10);
  }

  /** parseInt("12abc") is 12. */
  lemma ParseNumeralPrefix()
    ensures ParseInt("12abc") == Some(12)
  {
    var z, rest := "12", "abc";
    assert DigitOf(z[0], 10) == Some(1) && DigitOf(z[1], 10) == Some(2);
    assert DigitOf(rest[0], 10).None?;
    assert z[..1] == "1" && "1"[..0] == [];
    assert DigitsValue(z, 10) == 12;
    assert z + rest == "12abc";
    ParseDigitsThenRest(z, rest);
  }

  /** parseInt reads back what String(n) writes. */
  lemma ParseDecimal(n: nat)
    ensures ParseInt(Decimal(n)) == Some(n)
  {
    ParseDigits(Decimal(n));
    DecimalValue(n);
  }

  /** parseInt skips leading white space. */
  lemma ParseIntSkipsSpace(c: char, s: string)
    requires IsSpace(c)
    ensures ParseInt([c] + s) == ParseInt(s)
  {
    TrimStartLeadingSpace(c, s);
  }

  /** A minus sign before decimal digits negates their value. */
  lemma ParseNegativeDigits(z: string, v: nat)
    requires z != [] && AllDigits(z, 10) && DigitsValue(z, 10) == v
    ensures ParseInt("-" + z) == Some(-(v as int))
  {
    var t := "-" + z;
    assert !IsSpace(t[0]);
    assert TrimStart(t) == t;
    assert t[1..] == z;
    assert !(|z| >= 2 && HexPrefix(z)) by {
      if |z| >= 2 {
        DecimalDigitIsNumeral(z[0]);
      }
    }
    DigitPrefixOfDigits(z, 10);
  }

  /** parseInt keeps the sign: "-" followed by String(n) is -n. */
  lemma ParseNegativeDecimal(n: nat)
    ensures ParseInt("-" + Decimal(n)) == Some(-(n as int))
  {
    DecimalValue(n);
    ParseNegativeDigits(Decimal(n), n);
  }

  /** With the hexadecimal prefix the digits are read in radix 16. */
  lemma ParseHex(z: string)
    requires z != [] && AllDigits(z, 16)
    ensures ParseInt("0x" + z) == Some(DigitsValue(z, 16))
  {
    var t := "0x" + z;
    assert !IsSpace(t[0]);
    assert TrimStart(t) == t;
    assert t[2..] == z;
    DigitPrefixOfDigits(z, 16);
  }

  /** A string whose first non-blank character is neither a sign nor a
      decimal digit is NaN. */
  lemma ParseIntNaN(s: string)
    requires TrimStart(s) != [] && DigitOf(TrimStart(s)[0], 10).None?
    requires TrimStart(s)[0] != '-' && TrimStart(s)[0] != '+'
    ensures ParseInt(s).None?
  {
  }

  /** The digit prefix of digits followed by a non-digit is those digits. */
  lemma {:induction false} DigitPrefixThenRest(z: string, rest: string, radix: nat)
    requires AllDigits(z, radix)
    requires rest == [] || DigitOf(rest[0], radix).None?
    ensures DigitPrefix(z + rest, radix) == z
    decreases |z|
  {
    if z != [] {
      assert (z + rest)[1..] == z[1..] + rest;
      DigitPrefixThenRest(z[1..], rest, radix);
    }
  }

  lemma {:induction false} DigitPrefixOfDigits(z: string, radix: nat)
    requires AllDigits(z, radix)
    ensures DigitPrefix(z, radix) == z
    decreases |z|
  {
    if z != [] {
      DigitPrefixOfDigits(z[1..], radix);
    }
  }

  // ---------------------------------------------------------------------------
  // Math.ceil of a quotient
  // ---------------------------------------------------------------------------

  /** Math.ceil(total / limit): the least integer r with r >= total / limit. */
  function CeilDiv(total: nat, limit: int): (r: int)
    requires limit != 0
    ensures limit > 0 ==> (r - 1) * limit < total <= r * limit
    ensures limit < 0 ==> r * limit <= total < (r - 1) * limit
  {
    if limit > 0 then
      CeilPositive(total, limit);
      (total + limit - 1) / limit
    else
      CeilNegative(total, limit);
      -(total / -limit)
  }

  lemma CeilPositive(total: nat, limit: int)
    requires limit > 0
    ensures var r := (total + limit - 1) / limit; (r - 1) * limit < total <= r * limit
  {
    var a := total + limit - 1;
    var r := a / limit;
    assert a == r * limit + a % limit;
    assert (r - 1) * limit == r * limit - limit;
  }

  lemma CeilNegative(total: nat, limit: int)
    requires limit < 0
    ensures var r := -(total / -limit); r * limit <= total < (r - 1) * limit
  {
    var b := -limit;
    var q := total / b;
    assert total == q * b + total % b;
    assert (-q) * limit == q * b;
    assert (-q - 1) * limit == q * b + b;
  }
}
