/// `BufRead::read_line` over an input held as a string: each call takes the
/// text up to and including the next '\n', or the rest of the input when no
/// '\n' is left; at the end of the input it reads nothing.
module LineReader {
  import opened Text

  /** The chunk one read_line call takes from the front of s. */
  function ReadLine(s: string): (line: string)
    ensures line <= s
    ensures s != [] ==> line != []
    ensures forall i | 0 <= i < |line| - 1 :: line[i] != '\n'
    ensures line == s || line[|line| - 1] == '\n'
  {
    var i := Find(s, '\n');
    if i < |s| then s[..i + 1] else s
  }

  /** The chunks successive read_line calls return until one reads nothing. */
  function Lines(s: string): seq<string>
    decreases |s|
  {
    if s == [] then [] else var line := ReadLine(s); [line] + Lines(s[|line|..])
  }

  function Concat(ls: seq<string>): string {
    if ls == [] then [] else ls[0] + Concat(ls[1..])
  }

  /** The text ends a line: it is empty or its last character is '\n'. */
  predicate EndsLine(s: string) {
    s == [] || s[|s| - 1] == '\n'
  }

  /** Reading line by line loses nothing and adds nothing. */
  lemma {:induction false} LinesConcat(s: string)
    ensures Concat(Lines(s)) == s
    decreases |s|
  {
    if s != [] {
      var line := ReadLine(s);
      LinesConcat(s[|line|..]);
      assert s == line + s[|line|..];
    }
  }

  /** Every chunk is non-empty and holds at most one '\n', as its last
      character; only the last chunk may lack it. */
  lemma {:induction false} LinesShape(s: string)
    ensures forall k | 0 <= k < |Lines(s)| :: Lines(s)[k] != []
    ensures forall k | 0 <= k < |Lines(s)| - 1 :: Lines(s)[k][|Lines(s)[k]| - 1] == '\n'
    ensures forall k, i | 0 <= k < |Lines(s)| && 0 <= i < |Lines(s)[k]| - 1 :: Lines(s)[k][i] != '\n'
    decreases |s|
  {
    if s != [] {
      var line := ReadLine(s);
      LinesShape(s[|line|..]);
      assert line != s ==> s[|line|..] != [];
      assert forall k | 1 <= k < |Lines(s)| :: Lines(s)[k] == Lines(s[|line|..])[k - 1];
    }
  }

  /** The number of c in s. */
  function Occurrences(s: string, c: char): nat
    decreases |s|
  {
    if s == [] then 0 else (if s[0] == c then 1 else 0) + Occurrences(s[1..], c)
  }

  lemma {:induction false} OccurrencesAppend(a: string, b: string, c: char)
    ensures Occurrences(a + b, c) == Occurrences(a, c) + Occurrences(b, c)
    decreases |a|
  {
    if a == [] {
      assert a + b == b;
    } else {
      assert (a + b)[1..] == a[1..] + b;
      OccurrencesAppend(a[1..], b, c);
    }
  }

  /** One chunk per '\n', plus one for an unterminated last line. */
  lemma {:induction false} LinesCount(s: string)
    ensures |Lines(s)| == Occurrences(s, '\n') + (if EndsLine(s) then 0 else 1)
    decreases |s|
  {
    if s != [] {
      var line := ReadLine(s);
      var rest := s[|line|..];
      LinesCount(rest);
      assert s == line + rest;
      OccurrencesAppend(line, rest, '\n');
      ChunkOccurrences(line);
      if line == s {
        assert rest == [];
      } else {
        assert EndsLine(s) == EndsLine(rest);
      }
    }
  }

  /** A chunk holds a '\n' only as its last character. */
  lemma ChunkOccurrences(line: string)
    requires line != []
    requires forall i | 0 <= i < |line| - 1 :: line[i] != '\n'
    ensures Occurrences(line, '\n') == if line[|line| - 1] == '\n' then 1 else 0
  {
    var init := line[..|line| - 1];
    assert line == init + [line[|line| - 1]];
    OccurrencesAppend(init, [line[|line| - 1]], '\n');
    NoOccurrences(init, '\n');
  }

  lemma {:induction false} NoOccurrences(s: string, c: char)
    requires forall i | 0 <= i < |s| :: s[i] != c
    ensures Occurrences(s, c) == 0
    decreases |s|
  {
    if s != [] {
      NoOccurrences(s[1..], c);
    }
  }

  /** Reading a + b where a ends a line reads a's lines, then b's. */
  lemma {:induction false} LinesAppend(a: string, b: string)
    requires EndsLine(a)
    ensures Lines(a + b) == Lines(a) + Lines(b)
    decreases |a|
  {
    if a == [] {
      assert a + b == b;
    } else {
      FindAppend(a, b, '\n');
      var line := ReadLine(a);
      assert ReadLine(a + b) == line;
      var rest := a[|line|..];
      assert (a + b)[|line|..] == rest + b;
      assert EndsLine(rest);
      LinesAppend(rest, b);
      assert Lines(a + b) == [line] + Lines(rest + b);
    }
  }
}
