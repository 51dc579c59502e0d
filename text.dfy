/**
 * The Python string built-ins the converter relies on, over `seq<char>`:
 * `str.strip`, `str.rstrip`, `str.replace`, `str.split`, `str(n)` and `int(s)`.
 * Characters are treated as ASCII / Latin-1; see README for what that leaves out.
 */
module Text {
  import opened Wrappers

  /** `c.isspace()` for characters up to U+00FF */
  predicate IsSpace(c: char) {
    var n := c as int;
    n == 0x20 || 0x09 <= n <= 0x0D || 0x1C <= n <= 0x1F || n == 0x85 || n == 0xA0
  }

  predicate IsDigit(c: char) {
    '0' <= c <= '9'
  }

  predicate AllDigits(s: string) {
    forall i :: 0 <= i < |s| ==> IsDigit(s[i])
  }

  predicate AllSpace(s: string) {
    forall i :: 0 <= i < |s| ==> IsSpace(s[i])
  }

  /** `s.lstrip()`: drops the leading white space and nothing else */
  function TrimStart(s: string): (r: string)
    ensures |r| <= |s| && r == s[|s| - |r|..]
    ensures forall i :: 0 <= i < |s| - |r| ==> IsSpace(s[i])
    ensures r != [] ==> !IsSpace(r[0])
  {
    if s != [] && IsSpace(s[0]) then TrimStart(s[1..]) else s
  }

  /** `s.rstrip()`: drops the trailing white space and nothing else */
  function TrimEnd(s: string): (r: string)
    ensures |r| <= |s| && r == s[..|r|]
    ensures forall i :: |r| <= i < |s| ==> IsSpace(s[i])
    ensures r != [] ==> !IsSpace(r[|r| - 1])
  {
    if s != [] && IsSpace(s[|s| - 1]) then TrimEnd(s[..|s| - 1]) else s
  }

  /** `s.rstrip(c)`: drops the trailing run of `c` and nothing else */
  function TrimEndChar(s: string, c: char): (r: string)
    ensures |r| <= |s| && r == s[..|r|]
    ensures forall i :: |r| <= i < |s| ==> s[i] == c
    ensures r != [] ==> r[|r| - 1] != c
  {
    if s != [] && s[|s| - 1] == c then TrimEndChar(s[..|s| - 1], c) else s
  }

  /** `s.strip()`: the infix of `s` left once white space is removed from both ends */
  function Strip(s: string): (r: string)
    ensures |r| <= |s|
    ensures r == [] <==> AllSpace(s)
    ensures r != [] ==> !IsSpace(r[0]) && !IsSpace(r[|r| - 1])
    ensures s != [] && !IsSpace(s[0]) && !IsSpace(s[|s| - 1]) ==> r == s
  {
    StripFacts(s);
    TrimEnd(TrimStart(s))
  }

  lemma StripFacts(s: string)
    ensures var r := TrimEnd(TrimStart(s));
      && |r| <= |s|
      && (r == [] <==> AllSpace(s))
      && (r != [] ==> !IsSpace(r[0]) && !IsSpace(r[|r| - 1]))
      && (s != [] && !IsSpace(s[0]) && !IsSpace(s[|s| - 1]) ==> r == s)
  {
    var t := TrimStart(s);
    var r := TrimEnd(t);
    var i := |s| - |t|;
    if r == [] {
      assert t == [];
    } else {
      assert r[0] == t[0];
      assert !IsSpace(s[i]);
    }
  }

  /** `r` is the infix of `s` starting at `i`, with only white space before and after it */
  predicate SpaceAround(s: string, r: string, i: nat) {
    && i + |r| <= |s|
    && (forall k :: 0 <= k < |r| ==> r[k] == s[i + k])
    && (forall k :: 0 <= k < i ==> IsSpace(s[k]))
    && (forall k :: i + |r| <= k < |s| ==> IsSpace(s[k]))
  }

  /** `s.strip()` removes white space at both ends and nothing else */
  lemma StripInfix(s: string)
    ensures exists i :: SpaceAround(s, Strip(s), i)
  {
    var t := TrimStart(s);
    var r := TrimEnd(t);
    var i := |s| - |t|;
    forall k | 0 <= k < |r|
      ensures r[k] == s[i + k]
    {
      assert r[k] == t[k] && t[k] == s[i + k];
    }
    forall k | i + |r| <= k < |s|
      ensures IsSpace(s[k])
    {
      assert s[k] == t[k - i];
    }
    assert r == Strip(s);
    assert SpaceAround(s, Strip(s), i);
  }

  lemma StripIdempotent(s: string)
    ensures Strip(Strip(s)) == Strip(s)
  {
  }

  /** `s.replace(c, "")` */
  function RemoveAll(s: string, c: char): (r: string)
    ensures c !in r
    ensures forall x :: x in r ==> x in s
    ensures c !in s ==> r == s
  {
    if s == [] then []
    else
      assert s == [s[0]] + s[1..];
      (if s[0] == c then [] else [s[0]]) + RemoveAll(s[1..], c)
  }

  /** Removal goes character by character: a lone `c` disappears, any other character stays */
  lemma RemoveAllSingle(x: char, c: char)
    ensures RemoveAll([x], c) == if x == c then [] else [x]
  {
  }

  /** Removal distributes over concatenation, so the characters kept stay in their order */
  lemma {:induction false} RemoveAllConcat(a: string, b: string, c: char)
    ensures RemoveAll(a + b, c) == RemoveAll(a, c) + RemoveAll(b, c)
  {
    if a == [] {
      assert a + b == b;
    } else {
      assert (a + b)[1..] == a[1..] + b;
      RemoveAllConcat(a[1..], b, c);
    }
  }

  /** Exactly the occurrences of `c` are dropped */
  lemma {:induction false} RemoveAllLength(s: string, c: char)
    ensures |RemoveAll(s, c)| == |s| - Count(s, c)
  {
    if s != [] {
      RemoveAllLength(s[1..], c);
    }
  }

  /** Removing one character leaves the count of every other character as it was */
  lemma {:induction false} CountRemoveAll(s: string, c: char, d: char)
    requires c != d
    ensures Count(RemoveAll(s, c), d) == Count(s, d)
  {
    if s != [] {
      CountRemoveAll(s[1..], c, d);
      var head := if s[0] == c then [] else [s[0]];
      CountConcat(head, RemoveAll(s[1..], c), d);
      if head != [] {
        assert head[1..] == [];
      }
    }
  }

  /** `s.replace(a, b)` for single characters */
  function ReplaceChar(s: string, a: char, b: char): (r: string)
    ensures |r| == |s|
    ensures forall i :: 0 <= i < |s| ==> r[i] == (if s[i] == a then b else s[i])
  {
    if s == [] then [] else [if s[0] == a then b else s[0]] + ReplaceChar(s[1..], a, b)
  }

  /** The position of the first `d` in `s` */
  function IndexOf(s: string, d: char): (k: nat)
    requires d in s
    ensures k < |s| && s[k] == d && d !in s[..k]
  {
    if s[0] == d then 0
    else
      var k := IndexOf(s[1..], d) + 1;
      assert s[..k] == [s[0]] + s[1..][..k - 1];
      k
  }

  lemma IndexOfUnique(s: string, d: char, k: nat)
    requires k < |s| && s[k] == d && d !in s[..k]
    ensures d in s && IndexOf(s, d) == k
  {
    assert s[k] in s;
  }

  /** `s.count(d)`: how many times `d` occurs in `s` */
  function Count(s: string, d: char): nat {
    if s == [] then 0 else (if s[0] == d then 1 else 0) + Count(s[1..], d)
  }

  /** `d` occurs in `s` exactly when its count is positive */
  lemma {:induction false} CountPositive(s: string, d: char)
    ensures Count(s, d) > 0 <==> d in s
  {
    if s != [] {
      CountPositive(s[1..], d);
      assert d in s <==> s[0] == d || d in s[1..];
    }
  }

  lemma {:induction false} CountConcat(a: string, b: string, d: char)
    ensures Count(a + b, d) == Count(a, d) + Count(b, d)
  {
    if a != [] {
      assert (a + b)[1..] == a[1..] + b;
      CountConcat(a[1..], b, d);
    } else {
      assert a + b == b;
    }
  }

  /** `s.split(d)` for a one-character separator */
  function Split(s: string, d: char): (parts: seq<string>)
    ensures |parts| == Count(s, d) + 1
    ensures forall i :: 0 <= i < |parts| ==> d !in parts[i]
    decreases |s|
  {
    if d in s then
      var k := IndexOf(s, d);
      SplitCount(s, d, k);
      [s[..k]] + Split(s[k + 1..], d)
    else
      CountPositive(s, d);
      [s]
  }

  /** The separator at `k`, the first one, accounts for one occurrence; the rest lie after it */
  lemma SplitCount(s: string, d: char, k: nat)
    requires k < |s| && s[k] == d && d !in s[..k]
    ensures Count(s, d) == Count(s[k + 1..], d) + 1
  {
    var rest := s[k + 1..];
    assert s == s[..k] + ([d] + rest);
    CountConcat(s[..k], [d] + rest, d);
    CountPositive(s[..k], d);
    assert ([d] + rest)[1..] == rest;
  }

  /** `d.join(parts)`, the inverse of `Split` */
  function Join(parts: seq<string>, d: char): string
    requires parts != []
  {
    if |parts| == 1 then parts[0] else parts[0] + [d] + Join(parts[1..], d)
  }

  lemma JoinCons(p: string, parts: seq<string>, d: char)
    requires parts != []
    ensures Join([p] + parts, d) == p + [d] + Join(parts, d)
  {
    assert ([p] + parts)[1..] == parts;
  }

  lemma {:induction false} JoinSplit(s: string, d: char)
    ensures Join(Split(s, d), d) == s
    decreases |s|
  {
    if d in s {
      var k := IndexOf(s, d);
      var rest := s[k + 1..];
      JoinSplit(rest, d);
      JoinCons(s[..k], Split(rest, d), d);
      assert s == s[..k] + [d] + rest;
    }
  }

  /** Splitting text joined from separator-free fields gives those fields back */
  lemma {:induction false} SplitJoin(parts: seq<string>, d: char)
    requires parts != []
    requires forall i :: 0 <= i < |parts| ==> d !in parts[i]
    ensures Split(Join(parts, d), d) == parts
  {
    if |parts| == 1 {
      SplitNone(parts[0], d);
    } else {
      SplitJoinStep(parts[0], Join(parts[1..], d), d);
      SplitJoin(parts[1..], d);
      assert [parts[0]] + parts[1..] == parts;
    }
  }

  lemma SplitJoinStep(field: string, rest: string, d: char)
    requires d !in field
    ensures Split(field + [d] + rest, d) == [field] + Split(rest, d)
  {
    var s := field + [d] + rest;
    assert s[..|field|] == field;
    assert s[|field| + 1..] == rest;
    SplitAt(s, d, |field|);
  }

  lemma {:induction false} JoinAvoids(parts: seq<string>, d: char, c: char)
    requires parts != [] && c != d
    requires forall i :: 0 <= i < |parts| ==> c !in parts[i]
    ensures c !in Join(parts, d)
  {
    if |parts| > 1 {
      JoinAvoids(parts[1..], d, c);
    }
  }

  /** The text before the first separator is the first field, and the rest is split the same way */
  lemma SplitAt(s: string, d: char, k: nat)
    requires k < |s| && s[k] == d && d !in s[..k]
    ensures Split(s, d) == [s[..k]] + Split(s[k + 1..], d)
  {
    IndexOfUnique(s, d, k);
  }

  lemma SplitNone(s: string, d: char)
    requires d !in s
    ensures Split(s, d) == [s]
  {
  }

  function DigitChar(n: nat): (c: char)
    requires n < 10
    ensures IsDigit(c) && (c as int) - ('0' as int) == n
  {
    (('0' as int) + n) as char
  }

  function DigitValue(c: char): (n: nat)
    requires IsDigit(c)
    ensures n < 10 && DigitChar(n) == c
  {
    (c as int) - ('0' as int)
  }

  /** The number a string of decimal digits denotes, most significant digit first */
  function DigitsValue(s: string): nat
    requires AllDigits(s)
  {
    if s == [] then 0 else DigitsValue(s[..|s| - 1]) * 10 + DigitValue(s[|s| - 1])
  }

  /** `str(n)` for `n >= 0` */
  function ShowNat(n: nat): (r: string)
    ensures r != [] && AllDigits(r) && DigitsValue(r) == n
    ensures |r| == 1 <==> n < 10
    ensures r[0] == '0' ==> n == 0
  {
    if n < 10 then [DigitChar(n)]
    else
      var r := ShowNat(n / 10) + [DigitChar(n % 10)];
      assert r[..|r| - 1] == ShowNat(n / 10);
      r
  }

  /** `str(n)`: a minus sign in front of the digits of a negative number */
  function ShowInt(n: int): (r: string)
    ensures r != [] && (r[0] == '-' <==> n < 0)
    ensures n >= 0 ==> r == ShowNat(n)
    ensures n < 0 ==> r[1..] == ShowNat(-n)
  {
    if n < 0 then "-" + ShowNat(-n) else ShowNat(n)
  }

  /** Decimal digits with single underscores between them, the digit part `int()` accepts */
  predicate IsGroupedDigits(g: string) {
    g != [] && forall i :: 0 <= i < |g| ==> GroupedAt(g, i)
  }

  /** Position `i` holds a digit, or an underscore with a digit on either side */
  predicate GroupedAt(g: string, i: nat)
    requires i < |g|
  {
    IsDigit(g[i]) || (g[i] == '_' && 0 < i < |g| - 1 && IsDigit(g[i - 1]) && IsDigit(g[i + 1]))
  }

  function GroupedValue(g: string): (r: Option<nat>)
    ensures r.Some? <==> IsGroupedDigits(g)
    ensures g != [] && AllDigits(g) ==> r == Some(DigitsValue(g))
  {
    if IsGroupedDigits(g) then
      UngroupedDigits(g);
      Some(DigitsValue(RemoveAll(g, '_')))
    else None
  }

  lemma UngroupedDigits(g: string)
    requires IsGroupedDigits(g)
    ensures AllDigits(RemoveAll(g, '_'))
  {
    var ds := RemoveAll(g, '_');
    forall i | 0 <= i < |ds| ensures IsDigit(ds[i]) {
      assert ds[i] in ds && ds[i] != '_';
      var j :| 0 <= j < |g| && g[j] == ds[i];
      assert GroupedAt(g, j);
    }
  }

  /** U+001C to U+001F: white space to `isspace()` and `strip()`, but not to `int()` */
  predicate IsSeparatorControl(c: char) {
    0x1C <= c as int <= 0x1F
  }

  predicate HasSeparatorControl(s: string) {
    exists i :: 0 <= i < |s| && IsSeparatorControl(s[i])
  }

  /**
   * `int(s)`: white space around the number, an optional sign, then digits
   * grouped by single underscores; anything else is a ValueError (`None`).
   * The white space `int()` skips is that of `isspace()` without U+001C to
   * U+001F. Such a character is never skipped and never part of a number, so
   * any one of them makes `int()` raise; without them the two kinds of white
   * space agree and `int()` reads the stripped text.
   */
  function PyInt(s: string): (r: Option<int>)
    ensures HasSeparatorControl(s) ==> r == None
    ensures !HasSeparatorControl(s) && Strip(s) != [] && AllDigits(Strip(s)) ==> r == Some(DigitsValue(Strip(s)))
    ensures r.Some? ==> Strip(s) != []
    ensures r.Some? && IsDigit(Strip(s)[0]) ==> r.value >= 0
  {
    if HasSeparatorControl(s) then None else SignedValue(Strip(s))
  }

  /** The number denoted by already stripped text: an optional sign, then grouped digits */
  function SignedValue(t: string): (r: Option<int>)
    ensures t != [] && AllDigits(t) ==> r == Some(DigitsValue(t))
    ensures r.Some? ==> t != []
    ensures r.Some? && IsDigit(t[0]) ==> r.value >= 0
  {
    if t != [] && (t[0] == '+' || t[0] == '-') then
      match GroupedValue(t[1..])
      case None => None
      case Some(v) => var n: int := v; Some(if t[0] == '-' then -n else n)
    else
      match GroupedValue(t)
      case None => None
      case Some(v) => Some(v)
  }

  /** The text `int()` accepts once stripped: an optional sign, then grouped digits */
  predicate IsIntText(t: string) {
    IsGroupedDigits(t) || (t != [] && (t[0] == '+' || t[0] == '-') && IsGroupedDigits(t[1..]))
  }

  /** `int(s)` raises exactly when `s` holds one of U+001C to U+001F, or its stripped text is not an optional sign followed by grouped digits */
  lemma PyIntAccepts(s: string)
    ensures PyInt(s).Some? <==> !HasSeparatorControl(s) && IsIntText(Strip(s))
  {
    SignedAccepts(Strip(s));
  }

  /** Stripped text denotes a number exactly when it is an optional sign followed by grouped digits */
  lemma SignedAccepts(t: string)
    ensures SignedValue(t).Some? <==> IsIntText(t)
  {
    if t != [] && (t[0] == '+' || t[0] == '-') {
      assert !GroupedAt(t, 0);
    }
  }

  /** Text `int()` accepts holds only signs, digits and underscores, so none of U+001C to U+001F */
  lemma IntTextPlain(t: string)
    requires IsIntText(t)
    ensures !HasSeparatorControl(t)
  {
    forall i | 0 <= i < |t| ensures !IsSeparatorControl(t[i]) {
      if !IsGroupedDigits(t) && i > 0 {
        assert GroupedAt(t[1..], i - 1);
      } else if IsGroupedDigits(t) {
        assert GroupedAt(t, i);
      }
    }
  }

  /** Grouped digits mean the digits alone: the underscores only group them */
  lemma GroupedDigitsOnly(g: string)
    requires IsGroupedDigits(g)
    ensures AllDigits(RemoveAll(g, '_')) && GroupedValue(g) == Some(DigitsValue(RemoveAll(g, '_')))
  {
    UngroupedDigits(g);
  }

  /** Grouped digits are read as their value, and with a `+` or `-` in front as that value signed */
  lemma PyIntGrouped(g: string)
    requires IsGroupedDigits(g)
    ensures GroupedValue(g).Some?
    ensures PyInt(g) == Some(GroupedValue(g).value)
  {
    assert GroupedAt(g, 0) && GroupedAt(g, |g| - 1);
    StrippedInt(g);
  }

  /** A `+` in front of grouped digits keeps their value, a `-` negates it */
  lemma SignedGrouped(sign: char, g: string)
    requires (sign == '+' || sign == '-') && IsGroupedDigits(g)
    ensures GroupedValue(g).Some?
    ensures var v: int := GroupedValue(g).value;
      PyInt([sign] + g) == Some(if sign == '-' then -v else v)
  {
    var t := [sign] + g;
    assert GroupedAt(g, |g| - 1);
    assert t[|t| - 1] == g[|g| - 1];
    SignedText(sign, g);
    StrippedInt(t);
  }

  lemma SignedText(sign: char, g: string)
    requires (sign == '+' || sign == '-') && IsGroupedDigits(g)
    ensures GroupedValue(g).Some?
    ensures var v: int := GroupedValue(g).value;
      SignedValue([sign] + g) == Some(if sign == '-' then -v else v)
  {
    assert ([sign] + g)[1..] == g;
  }

  lemma StrippedInt(t: string)
    requires t != [] && !IsSpace(t[0]) && !IsSpace(t[|t| - 1])
    ensures PyInt(t) == SignedValue(t)
  {
    SignedAccepts(t);
    if SignedValue(t).Some? {
      IntTextPlain(t);
    }
  }

  /** `int("2h")` raises: the duration check lets such a column through, `int` does not */
  lemma TwoHoursSuffixRejected()
    ensures PyInt("2h") == None
  {
    assert !IsSpace('2') && !IsSpace('h');
    assert !GroupedAt("2h", 1);
    StrippedInt("2h");
  }

  /** `strip()` drops a trailing U+001C, but `int()` does not skip it and raises */
  lemma SeparatorControlNotSkipped()
    ensures Strip("5\U{1C}") == "5"
    ensures PyInt("5\U{1C}") == None
  {
    var s := "5\U{1C}";
    assert IsSeparatorControl(s[1]);
    assert TrimStart(s) == s;
    assert s[..1] == "5";
  }

  /** `int(str(n)) == n` */
  lemma PyIntShowInt(n: int)
    ensures PyInt(ShowInt(n)) == Some(n)
  {
    var r := ShowInt(n);
    assert !IsSpace(r[0]) && !IsSpace(r[|r| - 1]);
    assert Strip(r) == r;
    StrippedInt(r);
    if n < 0 {
      assert r == "-" + ShowNat(-n);
      assert r[1..] == ShowNat(-n);
    }
  }
}
