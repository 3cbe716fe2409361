/** Python values as they travel through the client: the dictionaries that
    hold recognition results, and the string operations the source applies
    to them (`str.join`, `in` on strings, `str.strip`, `str.lower`). */
module Values {
  import opened Wrappers

  /** A JSON-like Python value. `DateTime` stands for any object exposing
      `isoformat()` and carries the string that method returns. */
  datatype Value =
    | Null
    | Bool(b: bool)
    | Int(i: int)
    | Num(r: real)
    | Str(s: string)
    | DateTime(iso: string)
    | List(items: seq<Value>)
    | Obj(fields: map<string, Value>)

  /** A Python `dict` with string keys. */
  type Dict = map<string, Value>

  /** `d.get(k)`: the value under `k`, or `None` when `k` is absent. */
  function Get(d: Dict, k: string): (r: Value)
    ensures k in d ==> r == d[k]
    ensures k !in d ==> r == Null
  {
    if k in d then d[k] else Null
  }

  /** An optional number as a Python value: the number, or `None`. */
  function NumValue(x: Option<real>): Value {
    if x.Some? then Num(x.value) else Null
  }

  /** An optional string as a Python value: the string, or `None`. */
  function StrValue(x: Option<string>): Value {
    if x.Some? then Str(x.value) else Null
  }

  /** Python truthiness of an optional string: neither `None` nor "". */
  predicate Truthy(s: Option<string>) {
    s.Some? && s.value != ""
  }

  /** `str(v)` inside an f-string: a string is itself; everything else is
      rendered by `render`, which stands for Python's `str()`. */
  function PyStr(v: Value, render: Value -> string): (r: string)
    ensures v.Str? ==> r == v.s
  {
    if v.Str? then v.s else render(v)
  }

  /** `sep.join(parts)`. */
  function Join(parts: seq<string>, sep: string): (r: string)
    ensures parts == [] ==> r == ""
    ensures |parts| == 1 ==> r == parts[0]
  {
    if parts == [] then ""
    else if |parts| == 1 then parts[0]
    else parts[0] + sep + Join(parts[1..], sep)
  }

  /** `sub in s` on strings. */
  predicate IsInfix(sub: string, s: string) {
    exists i | 0 <= i <= |s| - |sub| :: InfixAt(sub, s, i)
  }

  /** `sub` occurs in `s` at position `i`. */
  predicate InfixAt(sub: string, s: string, i: int) {
    0 <= i <= |s| - |sub| && s[i..i + |sub|] == sub
  }

  /** A position at which `sub` occurs in `s`. */
  lemma InfixWitness(sub: string, s: string) returns (i: int)
    requires IsInfix(sub, s)
    ensures 0 <= i <= |s| - |sub| && s[i..i + |sub|] == sub
  {
    i :| 0 <= i <= |s| - |sub| && InfixAt(sub, s, i);
    assert InfixAt(sub, s, i);
  }

  /** An occurrence inside `s` is an occurrence inside `prefix + s + suffix`. */
  lemma InfixWiden(sub: string, s: string, prefix: string, suffix: string)
    requires IsInfix(sub, s)
    ensures IsInfix(sub, prefix + s + suffix)
  {
    var i := InfixWitness(sub, s);
    var w := prefix + s + suffix;
    assert w[|prefix| + i..|prefix| + i + |sub|] == s[i..i + |sub|];
    assert InfixAt(sub, w, |prefix| + i);
  }

  lemma InfixTransitive(a: string, b: string, c: string)
    requires IsInfix(a, b) && IsInfix(b, c)
    ensures IsInfix(a, c)
  {
    var i := InfixWitness(a, b);
    var j := InfixWitness(b, c);
    forall t | 0 <= t < |a| ensures c[j + i + t] == a[t] {
      assert b[i..i + |a|][t] == b[i + t];
      assert c[j..j + |b|][i + t] == c[j + i + t];
    }
    assert c[j + i..j + i + |a|] == a;
    assert InfixAt(a, c, j + i);
  }

  lemma InfixMiddle(a: string, b: string, c: string)
    ensures IsInfix(b, a + b + c)
  {
    assert (a + b + c)[|a|..|a| + |b|] == b;
    assert InfixAt(b, a + b + c, |a|);
  }

  lemma {:induction false} JoinHasParts(parts: seq<string>, sep: string, k: nat)
    requires k < |parts|
    ensures IsInfix(parts[k], Join(parts, sep))
  {
    var j := Join(parts, sep);
    if |parts| == 1 {
      assert InfixAt(parts[0], j, 0);
    } else if k == 0 {
      assert j == parts[0] + (sep + Join(parts[1..], sep));
      assert InfixAt(parts[0], j, 0);
    } else {
      JoinHasParts(parts[1..], sep, k - 1);
      assert parts[1..][k - 1] == parts[k];
      InfixWiden(parts[k], Join(parts[1..], sep), parts[0] + sep, "");
      assert j == parts[0] + sep + Join(parts[1..], sep) + "";
    }
  }

  /** Python's `str.isspace()` for one character: the characters with
      Unicode property White_Space plus the separators U+001C..U+001F. */
  predicate IsSpace(c: char) {
    InRanges(c as int, SpaceRanges)
  }

  /** The code points of those characters, as inclusive ranges. */
  const SpaceRanges: seq<(int, int)> := [
    (9, 13), (0x1C, 0x20), (0x85, 0x85), (0xA0, 0xA0), (0x1680, 0x1680),
    (0x2000, 0x200A), (0x2028, 0x2029), (0x202F, 0x202F), (0x205F, 0x205F),
    (0x3000, 0x3000)
  ]

  predicate InRanges(n: int, ranges: seq<(int, int)>) {
    ranges != [] && (ranges[0].0 <= n <= ranges[0].1 || InRanges(n, ranges[1..]))
  }

  predicate AllSpace(s: string) {
    forall i | 0 <= i < |s| :: IsSpace(s[i])
  }

  /** `s.strip()`: leading whitespace first, then trailing whitespace. */
  function Strip(s: string): (r: string)
    ensures |r| <= |s|
  {
    if s != [] && IsSpace(s[0]) then Strip(s[1..])
    else if s != [] && IsSpace(s[|s| - 1]) then Strip(s[..|s| - 1])
    else s
  }

  /** The stripped text starts and ends with a non-space character unless
      it is empty. */
  lemma {:induction false} StripEnds(s: string)
    ensures Strip(s) != [] ==> !IsSpace(Strip(s)[0]) && !IsSpace(Strip(s)[|Strip(s)| - 1])
  {
    if s != [] && IsSpace(s[0]) {
      StripEnds(s[1..]);
    } else if s != [] && IsSpace(s[|s| - 1]) {
      StripEnds(s[..|s| - 1]);
    }
  }

  /** The stripped text is the slice `s[i..j]`, and what is dropped on
      either side is whitespace. */
  lemma {:induction false} StripShape(s: string) returns (i: nat, j: nat)
    ensures i <= j <= |s| && Strip(s) == s[i..j]
    ensures AllSpace(s[..i]) && AllSpace(s[j..])
  {
    if s != [] && IsSpace(s[0]) {
      var i', j' := StripShape(s[1..]);
      i, j := i' + 1, j' + 1;
      DropFirst(s, i', j');
    } else if s != [] && IsSpace(s[|s| - 1]) {
      i, j := StripShape(s[..|s| - 1]);
      DropLast(s, i, j);
    } else {
      i, j := 0, |s|;
    }
  }

  lemma DropFirst(s: string, i: nat, j: nat)
    requires s != [] && IsSpace(s[0]) && i <= j <= |s| - 1
    requires AllSpace(s[1..][..i]) && AllSpace(s[1..][j..])
    ensures s[1..][i..j] == s[i + 1..j + 1]
    ensures AllSpace(s[..i + 1]) && AllSpace(s[j + 1..])
  {
    assert s[1..][j..] == s[j + 1..];
    assert forall k | 1 <= k < i + 1 :: s[k] == s[1..][..i][k - 1];
  }

  lemma DropLast(s: string, i: nat, j: nat)
    requires s != [] && IsSpace(s[|s| - 1]) && i <= j <= |s| - 1
    requires AllSpace(s[..|s| - 1][..i]) && AllSpace(s[..|s| - 1][j..])
    ensures s[..|s| - 1][i..j] == s[i..j]
    ensures AllSpace(s[..i]) && AllSpace(s[j..])
  {
    assert s[..|s| - 1][..i] == s[..i];
    assert forall k | j <= k < |s| - 1 :: s[k] == s[..|s| - 1][j..][k - j];
  }

  /** The stripped text is empty exactly when the text is all whitespace. */
  lemma StripEmpty(s: string)
    ensures Strip(s) == [] <==> AllSpace(s)
  {
    var i, j := StripShape(s);
    StripEnds(s);
    if Strip(s) == [] {
      assert forall k | 0 <= k < |s| :: if k < i then s[k] == s[..i][k] else s[k] == s[j..][k - j];
    } else {
      assert !IsSpace(s[i]);
    }
  }

  /** No Latin capital letter and no Cyrillic capital letter from U+0400 to
      U+042F. */
  predicate IsLowerCase(c: char) {
    !('A' <= c <= 'Z') && !(0x400 <= c as int <= 0x42F)
  }

  /** `str.lower()` for one character: Latin capitals A-Z and the Cyrillic
      capitals U+0400..U+042F; every other character is left as it is. */
  function LowerChar(c: char): (r: char)
    ensures 'A' <= c <= 'Z' ==> r as int == c as int + 32
    ensures 0x410 <= c as int <= 0x42F ==> r as int == c as int + 0x20
    ensures 0x400 <= c as int <= 0x40F ==> r as int == c as int + 0x50
    ensures IsLowerCase(c) ==> r == c
    ensures IsLowerCase(r)
  {
    if 'A' <= c <= 'Z' then (c as int + 32) as char
    else if 0x410 <= c as int <= 0x42F then (c as int + 0x20) as char
    else if 0x400 <= c as int <= 0x40F then (c as int + 0x50) as char
    else c
  }

  /** `s.lower()`, character by character. */
  function Lower(s: string): (r: string)
    ensures |r| == |s|
    ensures forall i | 0 <= i < |s| :: r[i] == LowerChar(s[i])
    ensures forall i | 0 <= i < |r| :: IsLowerCase(r[i])
    ensures forall i | 0 <= i < |s| :: IsLowerCase(s[i]) ==> r[i] == s[i]
  {
    seq(|s|, i requires 0 <= i < |s| => LowerChar(s[i]))
  }

  /** Lower-casing keeps occurrences: `sub in s` implies
      `sub.lower() in s.lower()`. */
  lemma LowerInfix(sub: string, s: string)
    requires IsInfix(sub, s)
    ensures IsInfix(Lower(sub), Lower(s))
  {
    var i := InfixWitness(sub, s);
    forall t | 0 <= t < |sub| ensures Lower(s)[i + t] == Lower(sub)[t] {
      assert s[i..i + |sub|][t] == s[i + t];
    }
    assert Lower(s)[i..i + |sub|] == Lower(sub);
    assert InfixAt(Lower(sub), Lower(s), i);
  }

  /** The number a string of decimal digits denotes. */
  function DigitsValue(s: string): nat
    requires forall i | 0 <= i < |s| :: '0' <= s[i] <= '9'
  {
    if s == [] then 0 else DigitsValue(s[..|s| - 1]) * 10 + (s[|s| - 1] - '0') as nat
  }

  /** The decimal digits of `n`: they denote `n`, and there is no leading
      zero unless `n` is zero. */
  function DigitString(n: nat): (r: string)
    ensures r != []
    ensures forall i | 0 <= i < |r| :: '0' <= r[i] <= '9'
    ensures DigitsValue(r) == n
    ensures r[0] == '0' ==> r == "0"
  {
    if n < 10 then ['0' + n as char]
    else
      var init := DigitString(n / 10);
      var r := init + ['0' + (n % 10) as char];
      assert r[..|r| - 1] == init;
      r
  }

  /** `str(n)` for an int: optional minus sign, then decimal digits. */
  function DecimalString(n: int): (r: string)
    ensures r != []
    ensures n >= 0 ==> r == DigitString(n)
    ensures n < 0 ==> r == "-" + DigitString(-n)
    ensures n >= 0 ==> DigitsValue(r) == n
    ensures n < 0 ==> r[0] == '-' && r[1..] == DigitString(-n) && DigitsValue(r[1..]) == -n
  {
    if n >= 0 then DigitString(n) else "-" + DigitString(-n)
  }
}
