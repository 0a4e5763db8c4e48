/// Character classes and formatting that the tools get from Rust's `str`,
/// `char` and `format!`: whitespace, ASCII digits, decimal rendering of
/// integers, right alignment and `trim_end`.
module Text {

  /** Rust's `char::is_whitespace`: the Unicode White_Space property. */
  predicate IsWhitespace(c: char)
    ensures c as int < 0x80 ==> (IsWhitespace(c) <==> c == ' ' || '\t' <= c <= '\r')
    ensures IsWhitespace(c) ==> !IsDigit(c) && c != '-' && c != ','
  {
    || ('\t' <= c <= '\r')
    || c == ' '
    || c == '\U{85}'
    || c == '\U{A0}'
    || c == '\U{1680}'
    || ('\U{2000}' <= c <= '\U{200A}')
    || c == '\U{2028}'
    || c == '\U{2029}'
    || c == '\U{202F}'
    || c == '\U{205F}'
    || c == '\U{3000}'
  }

  predicate IsDigit(c: char) {
    '0' <= c <= '9'
  }

  predicate AllDigits(s: string) {
    forall i | 0 <= i < |s| :: IsDigit(s[i])
  }

  /** What the regular expression `\d+` matches, for ASCII digits. */
  predicate IsDigits(s: string) {
    |s| > 0 && AllDigits(s)
  }

  function DigitValue(c: char): (d: nat)
    requires IsDigit(c)
    ensures d < 10
  {
    c as int - '0' as int
  }

  function DigitChar(d: nat): (c: char)
    requires d < 10
    ensures IsDigit(c) && DigitValue(c) == d
  {
    ('0' as int + d) as char
  }

  /** The number a string of decimal digits denotes (leading zeros allowed). */
  function Value(s: string): nat
    requires AllDigits(s)
    decreases |s|
  {
    if s == [] then 0 else 10 * Value(s[..|s| - 1]) + DigitValue(s[|s| - 1])
  }

  /** Rust's `Display` of an unsigned integer: its shortest decimal form. */
  function Show(n: nat): (s: string)
    ensures IsDigits(s)
    ensures Value(s) == n
    ensures s[0] == '0' ==> n == 0 && |s| == 1
  {
    if n < 10 then [DigitChar(n)]
    else
      var s := Show(n / 10) + [DigitChar(n % 10)];
      assert s[..|s| - 1] == Show(n / 10);
      s
  }

  function Pow10(k: nat): (p: nat)
    ensures p >= 1
  {
    if k == 0 then 1 else 10 * Pow10(k - 1)
  }

  /** A number below 10^k takes at most k digits. */
  lemma {:induction false} ShowWidth(n: nat, k: nat)
    requires n < Pow10(k)
    ensures |Show(n)| <= k || (n == 0 && k == 0)
  {
    if n >= 10 {
      ShowWidth(n / 10, k - 1);
    }
  }

  function Spaces(n: nat): (r: string)
    ensures |r| == n
    ensures forall i | 0 <= i < n :: r[i] == ' '
  {
    if n == 0 then [] else [' '] + Spaces(n - 1)
  }

  /** `format!("{:>w}", s)`: s right-aligned in a field of at least w
      characters; a longer s is kept whole. */
  function PadLeft(s: string, w: nat): (r: string)
    ensures |r| == if |s| < w then w else |s|
  {
    (if |s| < w then Spaces(w - |s|) else []) + s
  }

  /** PadLeft only adds spaces, in front of s. */
  lemma PadLeftSpec(s: string, w: nat)
    ensures PadLeft(s, w)[|PadLeft(s, w)| - |s|..] == s
    ensures forall i | 0 <= i < |PadLeft(s, w)| - |s| :: PadLeft(s, w)[i] == ' '
  {
    var fill := if |s| < w then Spaces(w - |s|) else [];
    assert (fill + s)[|fill|..] == s;
  }

  /** `str::trim_end`: s without its trailing whitespace. */
  function TrimEnd(s: string): (r: string)
    ensures r <= s
    decreases |s|
  {
    if s != [] && IsWhitespace(s[|s| - 1]) then TrimEnd(s[..|s| - 1]) else s
  }

  /** TrimEnd removes all the trailing whitespace and nothing else: what it
      keeps does not end in whitespace, and what it drops is whitespace. */
  lemma {:induction false} TrimEndSpec(s: string)
    ensures TrimEnd(s) == [] || !IsWhitespace(TrimEnd(s)[|TrimEnd(s)| - 1])
    ensures forall i | |TrimEnd(s)| <= i < |s| :: IsWhitespace(s[i])
    decreases |s|
  {
    if s != [] && IsWhitespace(s[|s| - 1]) {
      TrimEndSpec(s[..|s| - 1]);
    }
  }

  /** The index of the first c in s, or |s| when s has none. */
  function Find(s: string, c: char): (i: nat)
    ensures i <= |s|
    ensures i < |s| ==> s[i] == c
    ensures forall j | 0 <= j < i :: s[j] != c
    decreases |s|
  {
    if s == [] then 0 else if s[0] == c then 0 else 1 + Find(s[1..], c)
  }

  /** Find is determined by its contract: an occurrence of c with none before it. */
  lemma FindAt(s: string, c: char, i: nat)
    requires i < |s| && s[i] == c
    requires forall j | 0 <= j < i :: s[j] != c
    ensures Find(s, c) == i
  {
  }

  /** The first c of a + b lies in a whenever a holds one. */
  lemma FindAppend(a: string, b: string, c: char)
    requires Find(a, c) < |a|
    ensures Find(a + b, c) == Find(a, c)
  {
    var i := Find(a, c);
    assert (a + b)[i] == c;
    assert forall j | 0 <= j < i :: (a + b)[j] == a[j];
  }

  /** `str::split(sep)`: the pieces between separators, in order; the empty
      string splits into one empty piece. */
  function Split(s: string, sep: char): (ts: seq<string>)
    ensures |ts| > 0
    ensures forall k | 0 <= k < |ts| :: sep !in ts[k]
    decreases |s|
  {
    var i := Find(s, sep);
    if i == |s| then [s] else [s[..i]] + Split(s[i + 1..], sep)
  }

  /** The pieces put back together with sep between each two. */
  function Join(ts: seq<string>, sep: char): string
    requires |ts| > 0
  {
    if |ts| == 1 then ts[0] else ts[0] + [sep] + Join(ts[1..], sep)
  }

  lemma {:induction false} SplitJoin(s: string, sep: char)
    ensures Join(Split(s, sep), sep) == s
    decreases |s|
  {
    var i := Find(s, sep);
    if i < |s| {
      SplitJoin(s[i + 1..], sep);
      assert s == s[..i] + [sep] + s[i + 1..];
    }
  }

  lemma {:induction false} JoinSplit(ts: seq<string>, sep: char)
    requires |ts| > 0
    requires forall k | 0 <= k < |ts| :: sep !in ts[k]
    ensures Split(Join(ts, sep), sep) == ts
  {
    var s := Join(ts, sep);
    if |ts| == 1 {
      assert Find(s, sep) == |s|;
    } else {
      var t := ts[0];
      assert forall j | 0 <= j < |t| :: (t + [sep])[j] == t[j];
      FindAt(t + [sep], sep, |t|);
      FindAppend(t + [sep], Join(ts[1..], sep), sep);
      assert s[..|t|] == t;
      assert s[|t| + 1..] == Join(ts[1..], sep);
      JoinSplit(ts[1..], sep);
    }
  }
}
