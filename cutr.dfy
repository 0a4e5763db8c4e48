/// The position-list parser of `cutr` (08_cutr/src/lib.rs). A list such as
/// "1,3,5-8" of 1-based positions and inclusive ranges becomes a list of
/// 0-based half-open ranges, one per comma-separated token and in the order
/// written, or the error message of the first token that fails.
module Cutr {
  import opened Wrappers
  import opened Text

  /** usize::MAX on a 64-bit target. */
  const USIZE_MAX: nat := 0xFFFF_FFFF_FFFF_FFFF

  /** `Range<usize>`: the positions start, start + 1, ..., end - 1. */
  datatype Range = Range(start: nat, end: nat)

  type PositionList = seq<Range>

  predicate StartsWithPlus(s: string) {
    |s| > 0 && s[0] == '+'
  }

  /** `<usize as FromStr>::from_str`: an optional '+' sign, then one or more
      ASCII digits whose value fits in a usize. */
  function ParseUsize(s: string): (r: Option<nat>)
    ensures r.Some? ==> r.value <= USIZE_MAX
    ensures r.Some? ==> IsDigits(s) || (StartsWithPlus(s) && IsDigits(s[1..]))
    ensures IsDigits(s) ==> (r.Some? <==> Value(s) <= USIZE_MAX) && (r.Some? ==> r.value == Value(s))
  {
    var digits := if StartsWithPlus(s) then s[1..] else s;
    if IsDigits(digits) && Value(digits) <= USIZE_MAX then Some(Value(digits)) else None
  }

  /** `<NonZeroUsize as FromStr>::from_str`: as for usize, and 0 is refused. */
  function ParseNonZeroUsize(s: string): (r: Option<nat>)
    ensures r.Some? ==> 1 <= r.value <= USIZE_MAX
    ensures r.Some? ==> ParseUsize(s) == r
    ensures ParseUsize(s).Some? && ParseUsize(s).value != 0 ==> r == ParseUsize(s)
  {
    match ParseUsize(s)
    case Some(v) => if v == 0 then None else Some(v)
    case None => None
  }

  /** The message of parse_idx's `value_err`, quoting its whole argument. */
  function IllegalValue(s: string): string {
    "illegal list value: \"" + s + "\""
  }

  /** The message of a range whose first number is not below its second. */
  function RangeOrderError(first: nat, second: nat): string {
    "First number in range (" + Show(first) + ") must be lower than second number (" + Show(second) + ")"
  }

  function InvalidRange(s: string): string {
    "Invalid numeric range: " + s
  }

  /** parse_idx: one 1-based position, returned 0-based. A leading '+' is
      refused before the integer parser (which would accept it) is asked. */
  function ParseIdx(s: string): (r: Result<nat>)
    ensures r.Err? ==> r.error == IllegalValue(s)
    ensures r.Ok? ==> r.value < USIZE_MAX
  {
    if StartsWithPlus(s) then Err(IllegalValue(s))
    else match ParseNonZeroUsize(s)
      case Some(v) => Ok(v - 1)
      case None => Err(IllegalValue(s))
  }

  /** parse_idx accepts exactly the digit strings that denote a number from
      1 to usize::MAX, and returns that number less one. */
  lemma ParseIdxIff(s: string)
    ensures ParseIdx(s).Ok? <==> IsDigits(s) && 1 <= Value(s) <= USIZE_MAX
    ensures ParseIdx(s).Ok? ==> ParseIdx(s).value == Value(s) - 1
  {
  }

  /** The explicit '+' test is what refuses "+v": the integer parser alone
      would read it as v. */
  lemma ParseIdxRefusesPlus(v: nat)
    requires 1 <= v <= USIZE_MAX
    ensures ParseNonZeroUsize("+" + Show(v)) == Some(v)
    ensures ParseIdx("+" + Show(v)) == Err(IllegalValue("+" + Show(v)))
  {
    assert ("+" + Show(v))[1..] == Show(v);
  }

  /** Writing a position in decimal and parsing it gives it back, 0-based. */
  lemma ParseIdxShow(v: nat)
    requires 1 <= v <= USIZE_MAX
    ensures ParseIdx(Show(v)) == Ok(v - 1)
  {
  }

  lemma ParseIdxExamples()
    ensures ParseIdx("") == Err(IllegalValue(""))
    ensures ParseIdx("0") == Err(IllegalValue("0"))
    ensures ParseIdx("1") == Ok(0)
  {
    assert Value("0") == 0;
    assert Value("1") == 1;
  }

  /** s has the shape the regular expression ^(\d+)-(\d+)$ matches, with
      captures a and b. */
  ghost predicate RangeShaped(s: string, a: string, b: string) {
    s == a + "-" + b && IsDigits(a) && IsDigits(b)
  }

  /** The regular expression ^(\d+)-(\d+)$ applied to s: its two captures,
      if it matches. */
  function MatchRange(s: string): (m: Option<(string, string)>)
    ensures m.Some? ==> RangeShaped(s, m.value.0, m.value.1)
  {
    var i := Find(s, '-');
    if i < |s| && IsDigits(s[..i]) && IsDigits(s[i + 1..]) then
      assert s == s[..i] + "-" + s[i + 1..];
      Some((s[..i], s[i + 1..]))
    else
      None
  }

  /** MatchRange finds every match, and its captures are the only ones. */
  lemma MatchRangeComplete(s: string, a: string, b: string)
    requires RangeShaped(s, a, b)
    ensures MatchRange(s) == Some((a, b))
  {
    assert forall j | 0 <= j < |a| :: s[j] == a[j];
    FindAt(s, '-', |a|);
    assert s[..|a|] == a;
    assert s[|a| + 1..] == b;
  }

  /** The extract_range closure on the captures a and b: the endpoints are
      parsed first, a before b, and only then compared. */
  function ExtractRange(a: string, b: string): (r: Result<Range>)
    ensures r.Ok? ==> r.value.start + 2 <= r.value.end <= USIZE_MAX
  {
    match ParseIdx(a)
    case Err(e) => Err(e)
    case Ok(start) =>
      match ParseIdx(b)
      case Err(e) => Err(e)
      case Ok(end) =>
        if start >= end then Err(RangeOrderError(start + 1, end + 1))
        else Ok(Range(start, end + 1))
  }

  /** parse_range: a token "a-b" with 1-based a < b becomes (a-1)..b. */
  function ParseRange(s: string): (r: Result<Range>)
    ensures r.Ok? ==> r.value.start + 2 <= r.value.end <= USIZE_MAX
  {
    match MatchRange(s)
    case None => Err(InvalidRange(s))
    case Some((a, b)) => ExtractRange(a, b)
  }

  /** On a token of the shape a-b, parse_range reports a bad first endpoint,
      then a bad second one (quoting only that endpoint), then the order of
      the two numbers; otherwise it returns (a-1)..b. */
  lemma ParseRangeMatched(s: string, a: string, b: string)
    requires RangeShaped(s, a, b)
    ensures ParseRange(s) ==
      if !(1 <= Value(a) <= USIZE_MAX) then Err(IllegalValue(a))
      else if !(1 <= Value(b) <= USIZE_MAX) then Err(IllegalValue(b))
      else if Value(a) >= Value(b) then Err(RangeOrderError(Value(a), Value(b)))
      else Ok(Range(Value(a) - 1, Value(b)))
  {
    MatchRangeComplete(s, a, b);
    ParseIdxIff(a);
    ParseIdxIff(b);
  }

  /** Every token not of the shape a-b, the empty one included, is an
      invalid numeric range. */
  lemma ParseRangeUnmatched(s: string)
    requires forall a, b :: !RangeShaped(s, a, b)
    ensures ParseRange(s) == Err(InvalidRange(s))
  {
  }

  /** A range written in decimal parses back to its 0-based form. */
  lemma ParseRangeShow(a: nat, b: nat)
    requires 1 <= a < b <= USIZE_MAX
    ensures ParseRange(Show(a) + "-" + Show(b)) == Ok(Range(a - 1, b))
  {
    ParseRangeMatched(Show(a) + "-" + Show(b), Show(a), Show(b));
  }

  lemma ParseRangeExampleEmpty()
    ensures ParseRange("") == Err(InvalidRange(""))
  {
  }

  lemma ParseRangeExampleZero()
    ensures ParseRange("0") == Err(InvalidRange("0"))
  {
    assert Find("0", '-') == 1;
  }

  lemma ParseRangeExampleOk()
    ensures ParseRange("1-2") == Ok(Range(0, 2))
  {
    assert Show(1) + "-" + Show(2) == "1-2";
    ParseRangeShow(1, 2);
  }

  lemma ParseRangeExampleZeroStart()
    ensures ParseRange("0-1") == Err(IllegalValue("0"))
  {
    assert "0-1" == "0" + "-" + "1";
    assert Value("0") == 0;
    ParseRangeMatched("0-1", "0", "1");
  }

  lemma ParseRangeExampleEqual()
    ensures ParseRange("1-1") == Err(RangeOrderError(1, 1))
  {
    assert "1-1" == "1" + "-" + "1";
    assert Value("1") == 1;
    ParseRangeMatched("1-1", "1", "1");
  }

  lemma ParseRangeExampleReversed()
    ensures ParseRange("2-1") == Err(RangeOrderError(2, 1))
  {
    assert "2-1" == "2" + "-" + "1";
    assert Value("1") == 1 && Value("2") == 2;
    ParseRangeMatched("2-1", "2", "1");
  }

  lemma ParseRangeExamplePlusEnd()
    ensures ParseRange("1-+2") == Err(InvalidRange("1-+2"))
  {
    assert Find("1-+2", '-') == 1;
    assert "1-+2"[2..] == "+2";
    assert !IsDigit("+2"[0]);
  }

  /** One token of parse_pos: a single position x gives x..x+1; any token
      parse_idx refuses goes to parse_range, whose error is the one kept. */
  function ParseToken(t: string): (r: Result<Range>)
    ensures r.Ok? ==> r.value.start < r.value.end
    ensures r.Err? ==> r == ParseRange(t)
  {
    match ParseIdx(t)
    case Ok(x) => Ok(Range(x, x + 1))
    case Err(_) => ParseRange(t)
  }

  /** The value of every token: a position x gives x-1..x, and any other
      token gives what parse_range makes of it, success or failure. */
  lemma ParseTokenIff(t: string)
    ensures ParseToken(t) ==
      if IsDigits(t) && 1 <= Value(t) <= USIZE_MAX then Ok(Range(Value(t) - 1, Value(t)))
      else ParseRange(t)
  {
    ParseIdxIff(t);
  }

  /** Token k is the first that fails. */
  ghost predicate FirstFailure(ts: seq<string>, k: int) {
    && 0 <= k < |ts|
    && ParseToken(ts[k]).Err?
    && forall j | 0 <= j < k :: ParseToken(ts[j]).Ok?
  }

  lemma FirstFailureLater(ts: seq<string>, e: string)
    requires |ts| > 0 && ParseToken(ts[0]).Ok?
    requires exists k :: FirstFailure(ts[1..], k) && ParseToken(ts[1..][k]).error == e
    ensures exists k :: FirstFailure(ts, k) && ParseToken(ts[k]).error == e
  {
    var k :| FirstFailure(ts[1..], k) && ParseToken(ts[1..][k]).error == e;
    assert FirstFailure(ts, k + 1);
  }

  /** Collecting the tokens' results into one Result: all the ranges, in
      order, or the first error. */
  function Collect(ts: seq<string>): (r: Result<PositionList>)
    ensures r.Ok? <==> forall k | 0 <= k < |ts| :: ParseToken(ts[k]).Ok?
    ensures r.Ok? ==> |r.value| == |ts| && forall k | 0 <= k < |ts| :: ParseToken(ts[k]) == Ok(r.value[k])
    ensures r.Err? ==> exists k :: FirstFailure(ts, k) && ParseToken(ts[k]).error == r.error
  {
    if ts == [] then Ok([])
    else
      match ParseToken(ts[0])
      case Err(e) =>
        assert FirstFailure(ts, 0);
        Err(e)
      case Ok(x) =>
        match Collect(ts[1..])
        case Err(e) =>
          FirstFailureLater(ts, e);
          Err(e)
        case Ok(xs) =>
          assert forall k | 1 <= k < |ts| :: ts[k] == ts[1..][k - 1];
          Ok([x] + xs)
  }

  /** parse_pos: split at every ',' and parse each piece. */
  function ParsePos(s: string): (r: Result<PositionList>)
    ensures r.Ok? ==> forall k | 0 <= k < |r.value| :: r.value[k].start < r.value[k].end
  {
    Collect(Split(s, ','))
  }

  /** A successful parse_pos yields one range per token, in input order,
      and each is what that token alone parses to: nothing is sorted or
      merged. */
  lemma ParsePosTokens(ts: seq<string>)
    requires |ts| > 0 && forall k | 0 <= k < |ts| :: ',' !in ts[k]
    ensures ParsePos(Join(ts, ',')).Ok? <==> forall k | 0 <= k < |ts| :: ParseToken(ts[k]).Ok?
    ensures ParsePos(Join(ts, ',')).Ok? ==>
      var rs := ParsePos(Join(ts, ',')).value;
      |rs| == |ts| && forall k | 0 <= k < |ts| :: ParseToken(ts[k]) == Ok(rs[k])
  {
    JoinSplit(ts, ',');
  }

  /** A failing parse_pos reports the error of its first failing token,
      which is always parse_range's error for that token. */
  lemma ParsePosError(ts: seq<string>)
    requires |ts| > 0 && forall k | 0 <= k < |ts| :: ',' !in ts[k]
    requires ParsePos(Join(ts, ',')).Err?
    ensures exists k :: FirstFailure(ts, k) && ParseRange(ts[k]) == Err(ParsePos(Join(ts, ',')).error)
  {
    JoinSplit(ts, ',');
  }

  /** A list without commas is a single token. */
  lemma ParsePosOneToken(t: string)
    requires ',' !in t
    ensures ParsePos(t) == match ParseToken(t) case Ok(r) => Ok([r]) case Err(e) => Err(e)
  {
    assert Find(t, ',') == |t|;
    assert Split(t, ',') == [t];
    assert [t][1..] == [];
    assert Collect([]) == Ok([]);
    match ParseToken(t)
    case Ok(r) =>
      assert Collect([t]) == Ok([r] + []);
      assert [r] + [] == [r];
    case Err(e) =>
      assert Collect([t]) == Err(e);
  }

  /** Every positive position on its own gives the single range [v-1, v). */
  lemma ParsePosSingle(v: nat)
    requires 1 <= v <= USIZE_MAX
    ensures ParsePos(Show(v)) == Ok([Range(v - 1, v)])
  {
    var s := Show(v);
    assert forall j | 0 <= j < |s| :: IsDigit(s[j]);
    ParsePosOneToken(s);
    ParseIdxShow(v);
  }

  lemma ParseTokenExamples()
    ensures ParseToken("1") == Ok(Range(0, 1))
    ensures ParseToken("3") == Ok(Range(2, 3))
    ensures ParseToken("5-8") == Ok(Range(4, 8))
  {
    ParseTokenExampleIdx();
    ParseTokenExampleRange();
  }

  lemma ParseTokenExampleIdx()
    ensures ParseToken("1") == Ok(Range(0, 1))
    ensures ParseToken("3") == Ok(Range(2, 3))
  {
    assert ParseIdx("1") == Ok(0) by { assert Value("1") == 1; }
    assert ParseIdx("3") == Ok(2) by { assert Value("3") == 3; }
  }

  lemma ParseTokenExampleRange()
    ensures ParseToken("5-8") == Ok(Range(4, 8))
  {
    assert ParseIdx("5-8").Err? by {
      assert !IsDigit("5-8"[1]);
      ParseIdxIff("5-8");
    }
    assert ParseRange("5-8") == Ok(Range(4, 8)) by {
      assert "5-8" == "5" + "-" + "8";
      assert Value("5") == 5 && Value("8") == 8;
      ParseRangeMatched("5-8", "5", "8");
    }
  }


  lemma ParsePosExample()
    ensures ParsePos("1,3,5-8") == Ok([Range(0, 1), Range(2, 3), Range(4, 8)])
  {
    var ts := ["1", "3", "5-8"];
    assert Split("1,3,5-8", ',') == ts by {
      assert Join(ts, ',') == "1,3,5-8";
      JoinSplit(ts, ',');
    }
    CollectExample();
  }

  lemma CollectExample()
    ensures Collect(["1", "3", "5-8"]) == Ok([Range(0, 1), Range(2, 3), Range(4, 8)])
  {
    ParseTokenExamples();
    var ts := ["1", "3", "5-8"];
    assert ts[0] == "1" && ts[1] == "3" && ts[2] == "5-8";
    var r := Collect(ts);
    assert r.Ok?;
    assert r.value[0] == Range(0, 1) && r.value[1] == Range(2, 3) && r.value[2] == Range(4, 8);
    assert |r.value| == 3;
    assert r.value == [Range(0, 1), Range(2, 3), Range(4, 8)];
  }

  /** The tests of a lone token: the error is parse_range's, so "0" and
      "+1" are invalid ranges rather than illegal values. */
  lemma ParsePosExampleRange()
    ensures ParsePos("1-2") == Ok([Range(0, 2)])
  {
    assert ParseIdx("1-2").Err? by {
      assert !IsDigit("1-2"[1]);
      ParseIdxIff("1-2");
    }
    ParseRangeExampleOk();
    assert ParseToken("1-2") == Ok(Range(0, 2));
    ParsePosOneToken("1-2");
  }

  lemma ParsePosExampleZeroStart()
    ensures ParsePos("0-1") == Err(IllegalValue("0"))
  {
    assert ParseIdx("0-1").Err? by {
      assert !IsDigit("0-1"[1]);
      ParseIdxIff("0-1");
    }
    ParseRangeExampleZeroStart();
    assert ParseToken("0-1") == Err(IllegalValue("0"));
    ParsePosOneToken("0-1");
  }

  lemma ParsePosExampleZero()
    ensures ParsePos("0") == Err(InvalidRange("0"))
  {
    assert ParseIdx("0").Err? by {
      assert Value("0") == 0;
      ParseIdxIff("0");
    }
    ParseRangeExampleZero();
    assert ParseToken("0") == Err(InvalidRange("0"));
    ParsePosOneToken("0");
  }

  lemma ParsePosExamplePlus()
    ensures ParsePos("+1") == Err(InvalidRange("+1"))
  {
    ParsePosOneToken("+1");
    assert Find("+1", '-') == 2;
  }

  lemma ParsePosExampleEmpty()
    ensures ParsePos("") == Err(InvalidRange(""))
  {
    ParsePosOneToken("");
  }
}
