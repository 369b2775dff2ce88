/** The string operations of Python that the app relies on: `str.isspace`,
    `str.strip()`, `str.split(sep)` with a one-character separator and
    `str(n)` for a non-negative integer. */
module Text {

  /** Python's `str.isspace` on one character (Unicode "White_Space" as
      CPython defines it: bidirectional class WS, B or S, or category Zs). */
  predicate IsSpace(c: char)
    ensures IsSpace(c) ==> !('0' <= c <= '9')
  {
    ('\t' <= c <= '\r') || ('\U{1C}' <= c <= '\U{1F}') || c == ' '
    || c == '\U{85}' || c == '\U{A0}' || c == '\U{1680}'
    || ('\U{2000}' <= c <= '\U{200A}') || c == '\U{2028}' || c == '\U{2029}'
    || c == '\U{202F}' || c == '\U{205F}' || c == '\U{3000}'
  }

  /** Every character is whitespace (this includes the empty string). */
  predicate IsBlank(s: string) {
    forall k :: 0 <= k < |s| ==> IsSpace(s[k])
  }

  /** `s.lstrip()`: drops the longest all-whitespace prefix. */
  function StripLeft(s: string): (r: string)
    ensures |r| <= |s| && r == s[|s| - |r|..]
    ensures forall k :: 0 <= k < |s| - |r| ==> IsSpace(s[k])
    ensures r == [] || !IsSpace(r[0])
  {
    if |s| > 0 && IsSpace(s[0]) then StripLeft(s[1..]) else s
  }

  /** `s.rstrip()`: drops the longest all-whitespace suffix. */
  function StripRight(s: string): (r: string)
    ensures |r| <= |s| && r == s[..|r|]
    ensures forall k :: |r| <= k < |s| ==> IsSpace(s[k])
    ensures r == [] || !IsSpace(r[|r| - 1])
  {
    if |s| > 0 && IsSpace(s[|s| - 1]) then StripRight(s[..|s| - 1]) else s
  }

  /** `s.strip()`: the result is the contiguous middle of `s` that is left
      once all leading and trailing whitespace is dropped. */
  function Strip(s: string): (r: string)
    ensures var i := |s| - |StripLeft(s)|;
      && i + |r| <= |s| && r == s[i..i + |r|]
      && (forall k :: 0 <= k < i ==> IsSpace(s[k]))
      && (forall k :: i + |r| <= k < |s| ==> IsSpace(s[k]))
    ensures r == [] || (!IsSpace(r[0]) && !IsSpace(r[|r| - 1]))
  {
    StripRight(StripLeft(s))
  }

  /** A string strips to nothing exactly when it is blank; this is what
      Python's truth test `if ln.strip()` decides. */
  lemma StripEmptyIffBlank(s: string)
    ensures Strip(s) == [] <==> IsBlank(s)
  {
  }

  /** Stripping twice changes nothing more. */
  lemma StripIdempotent(s: string)
    ensures Strip(Strip(s)) == Strip(s)
  {
    var r := Strip(s);
    assert StripLeft(r) == r;
    assert StripRight(r) == r;
  }

  /** Index of the first `c` in `s`, or `|s|` when there is none. */
  function IndexOf(s: string, c: char): (i: nat)
    ensures i <= |s|
    ensures i < |s| ==> s[i] == c
    ensures forall k :: 0 <= k < i ==> s[k] != c
  {
    if |s| == 0 then 0
    else if s[0] == c then 0
    else 1 + IndexOf(s[1..], c)
  }

  /** `s.split(sep)` for a one-character separator: never an empty list,
      and an empty string splits into `[""]`. */
  function Split(s: string, sep: char): (ps: seq<string>)
    ensures |ps| >= 1
    decreases |s|
  {
    var i := IndexOf(s, sep);
    if i == |s| then [s] else [s[..i]] + Split(s[i + 1..], sep)
  }

  /** `sep.join(ps)`, the inverse of `Split`. */
  function Join(ps: seq<string>, sep: char): string
    requires |ps| >= 1
  {
    if |ps| == 1 then ps[0] else ps[0] + [sep] + Join(ps[1..], sep)
  }

  /** No piece contains the separator. */
  predicate SepFree(ps: seq<string>, sep: char) {
    forall k :: 0 <= k < |ps| ==> sep !in ps[k]
  }

  /** Splitting yields separator-free pieces that join back to the input. */
  lemma {:induction false} SplitJoin(s: string, sep: char)
    ensures SepFree(Split(s, sep), sep)
    ensures Join(Split(s, sep), sep) == s
    decreases |s|
  {
    var i := IndexOf(s, sep);
    if i < |s| {
      SplitJoin(s[i + 1..], sep);
      var rest := Split(s[i + 1..], sep);
      assert Split(s, sep) == [s[..i]] + rest;
      assert ([s[..i]] + rest)[1..] == rest;
      assert s == s[..i] + [sep] + s[i + 1..];
    }
  }

  lemma {:induction false} IndexOfAfterFreePrefix(x: string, sep: char, y: string)
    requires sep !in x
    ensures IndexOf(x + [sep] + y, sep) == |x|
  {
    var s := x + [sep] + y;
    assert s[|x|] == sep;
    assert forall k :: 0 <= k < |x| ==> s[k] == x[k];
  }

  /** Joining separator-free pieces and splitting again gives the pieces
      back: together with `SplitJoin`, `Split` and `Join` are inverse
      bijections between strings and non-empty separator-free lists. */
  lemma {:induction false} JoinSplit(ps: seq<string>, sep: char)
    requires |ps| >= 1 && SepFree(ps, sep)
    ensures Split(Join(ps, sep), sep) == ps
  {
    var s := Join(ps, sep);
    if |ps| == 1 {
      assert s == ps[0] && sep !in s;
      assert IndexOf(s, sep) == |s|;
    } else {
      var head, rest := ps[0], ps[1..];
      assert sep !in head;
      assert SepFree(rest, sep);
      var tail := Join(rest, sep);
      assert s == head + [sep] + tail;
      IndexOfAfterFreePrefix(head, sep, tail);
      var i := |head|;
      assert s[..i] == head;
      assert s[i + 1..] == tail;
      JoinSplit(rest, sep);
      assert Split(s, sep) == [head] + Split(tail, sep);
      assert ps == [head] + rest;
    }
  }

  /** The number of pieces is one more than the number of separators. */
  lemma {:induction false} SplitCount(s: string, sep: char)
    ensures |Split(s, sep)| == multiset(s)[sep] + 1
    decreases |s|
  {
    var i := IndexOf(s, sep);
    if i == |s| {
      assert sep !in s;
    } else {
      SplitCount(s[i + 1..], sep);
      assert s == s[..i] + [sep] + s[i + 1..];
      assert sep !in s[..i];
      assert multiset(s) == multiset(s[..i]) + multiset{sep} + multiset(s[i + 1..]);
    }
  }

  /** The first piece is a prefix of the joined string. */
  lemma {:induction false} JoinStartsWith(ps: seq<string>, sep: char)
    requires |ps| >= 1
    ensures |ps[0]| <= |Join(ps, sep)| && Join(ps, sep)[..|ps[0]|] == ps[0]
  {
    if |ps| > 1 {
      assert Join(ps, sep) == ps[0] + ([sep] + Join(ps[1..], sep));
    }
  }

  /** With two or more pieces, the joined string ends with a separator
      followed by the last piece. */
  lemma {:induction false} JoinEndsWith(ps: seq<string>, sep: char)
    requires |ps| >= 2
    ensures var last := ps[|ps| - 1]; var s := Join(ps, sep);
      |last| < |s| && s[|s| - |last| - 1] == sep && s[|s| - |last|..] == last
  {
    var rest := ps[1..];
    var t := Join(rest, sep);
    var s := Join(ps, sep);
    assert s == ps[0] + [sep] + t;
    var last := ps[|ps| - 1];
    assert rest[|rest| - 1] == last;
    if |rest| >= 2 {
      JoinEndsWith(rest, sep);
    } else {
      assert t == last;
    }
    assert s[|s| - |t|..] == t;
    assert s[|s| - |last|..] == t[|t| - |last|..];
  }

  /** A join of pieces with a whitespace separator is blank exactly when
      every piece is blank. */
  lemma {:induction false} BlankJoin(ps: seq<string>, sep: char)
    requires |ps| >= 1 && IsSpace(sep)
    ensures IsBlank(Join(ps, sep)) <==> forall k :: 0 <= k < |ps| ==> IsBlank(ps[k])
  {
    if |ps| > 1 {
      BlankJoin(ps[1..], sep);
      var t := Join(ps[1..], sep);
      var s := ps[0] + [sep] + t;
      assert Join(ps, sep) == s;
      assert forall k :: 0 <= k < |ps[0]| ==> s[k] == ps[0][k];
      assert forall k :: 0 <= k < |t| ==> s[|ps[0]| + 1 + k] == t[k];
      assert IsBlank(s) <==> IsBlank(ps[0]) && IsBlank(t) by {
        if IsBlank(ps[0]) && IsBlank(t) {
          assert forall k :: 0 <= k < |s| ==> IsSpace(s[k]) by {
            forall k | 0 <= k < |s| ensures IsSpace(s[k]) {
              if k > |ps[0]| { assert s[k] == t[k - |ps[0]| - 1]; }
            }
          }
        }
      }
      assert forall k :: 1 <= k < |ps| ==> ps[k] == ps[1..][k - 1];
    }
  }

  function DigitChar(d: nat): (c: char)
    requires d < 10
    ensures '0' <= c <= '9' && c as int - '0' as int == d
  {
    ('0' as int + d) as char
  }

  predicate IsDigits(s: string) {
    forall k :: 0 <= k < |s| ==> '0' <= s[k] <= '9'
  }

  /** `str(n)` for `n >= 0`: decimal digits with no leading zero. */
  function NatToString(n: nat): (s: string)
    ensures |s| >= 1 && IsDigits(s)
    ensures |s| > 1 ==> s[0] != '0'
  {
    if n < 10 then [DigitChar(n)] else NatToString(n / 10) + [DigitChar(n % 10)]
  }

  /** The value of a string of decimal digits. */
  function DigitsValue(s: string): nat
    requires IsDigits(s)
  {
    if |s| == 0 then 0
    else DigitsValue(s[..|s| - 1]) * 10 + (s[|s| - 1] as int - '0' as int)
  }

  /** Reading back the decimal rendering gives the number. */
  lemma {:induction false} NatToStringRoundTrip(n: nat)
    ensures DigitsValue(NatToString(n)) == n
  {
    if n >= 10 {
      NatToStringRoundTrip(n / 10);
      var s := NatToString(n);
      assert s[..|s| - 1] == NatToString(n / 10);
    }
  }

  /** Distinct numbers render to distinct strings. */
  lemma NatToStringInjective(a: nat, b: nat)
    ensures NatToString(a) == NatToString(b) ==> a == b
  {
    NatToStringRoundTrip(a);
    NatToStringRoundTrip(b);
  }
}
