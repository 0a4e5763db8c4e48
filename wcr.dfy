/// The counting core of `wcr` (05_wcr/src/lib.rs): the line, word, byte and
/// character counts of one input, their field-wise sums, the default choice
/// of columns and the layout of one output line.
module Wcr {
  import opened Wrappers
  import opened Text
  import opened LineReader

  /** `char::len_utf8`: the bytes UTF-8 takes to encode c. */
  function Utf8Width(c: char): (n: nat)
    ensures 1 <= n <= 4
    ensures n == 1 <==> c as int < 0x80
  {
    if c as int < 0x80 then 1
    else if c as int < 0x800 then 2
    else if c as int < 0x1_0000 then 3
    else 4
  }

  /** `str::len`: the length of s in UTF-8 bytes. Every character takes at
      least one byte and at most four. */
  function ByteLen(s: string): (n: nat)
    ensures |s| <= n <= 4 * |s|
    decreases |s|
  {
    if s == [] then 0 else Utf8Width(s[0]) + ByteLen(s[1..])
  }

  lemma {:induction false} ByteLenAppend(a: string, b: string)
    ensures ByteLen(a + b) == ByteLen(a) + ByteLen(b)
    decreases |a|
  {
    if a == [] {
      assert a + b == b;
    } else {
      assert (a + b)[1..] == a[1..] + b;
      ByteLenAppend(a[1..], b);
    }
  }

  /** Bytes and characters agree exactly on ASCII text. */
  lemma {:induction false} ByteLenAscii(s: string)
    ensures ByteLen(s) == |s| <==> forall i | 0 <= i < |s| :: s[i] as int < 0x80
    decreases |s|
  {
    if s != [] {
      ByteLenAscii(s[1..]);
      assert forall i | 1 <= i < |s| :: s[i] == s[1..][i - 1];
    }
  }

  /** `str::split_whitespace().count()`: the number of maximal runs of
      non-whitespace characters, each counted at its last character. */
  function WordCount(s: string): (n: nat)
    decreases |s|
  {
    if s == [] then 0
    else
      var endsWord := !IsWhitespace(s[0]) && (|s| == 1 || IsWhitespace(s[1]));
      (if endsWord then 1 else 0) + WordCount(s[1..])
  }

  /** No word runs across a whitespace character, so the words of a + b are
      those of a and those of b when a ends in whitespace. */
  lemma {:induction false} WordCountAppend(a: string, b: string)
    requires a == [] || IsWhitespace(a[|a| - 1])
    ensures WordCount(a + b) == WordCount(a) + WordCount(b)
    decreases |a|
  {
    if a == [] {
      assert a + b == b;
    } else {
      assert (a + b)[1..] == a[1..] + b;
      WordCountAppend(a[1..], b);
    }
  }

  /** A text holds no word exactly when it is all whitespace. */
  lemma {:induction false} WordCountZero(s: string)
    ensures WordCount(s) == 0 <==> forall i | 0 <= i < |s| :: IsWhitespace(s[i])
    decreases |s|
  {
    if s != [] {
      WordCountZero(s[1..]);
      if !IsWhitespace(s[0]) && |s| > 1 && !IsWhitespace(s[1]) {
        assert !IsWhitespace(s[1..][0]);
      }
    }
  }

  /** Text made only of whitespace holds no word. */
  lemma {:induction false} WordCountBlank(s: string)
    requires forall i | 0 <= i < |s| :: IsWhitespace(s[i])
    ensures WordCount(s) == 0
    decreases |s|
  {
    if s != [] {
      WordCountBlank(s[1..]);
    }
  }

  /** The counts of one input (a file or stdin). */
  datatype FileInfo = FileInfo(nLines: nat, nWords: nat, nBytes: nat, nChars: nat) {

    /** `FileInfo::new()`, that is `Default::default()`. */
    static function New(): (r: FileInfo)
      ensures r.nLines == 0 && r.nWords == 0 && r.nBytes == 0 && r.nChars == 0
    {
      FileInfo(0, 0, 0, 0)
    }

    /** `impl Add for FileInfo`: field by field. */
    function Add(other: FileInfo): (r: FileInfo)
      ensures r.nLines == nLines + other.nLines && r.nWords == nWords + other.nWords
      ensures r.nBytes == nBytes + other.nBytes && r.nChars == nChars + other.nChars
    {
      FileInfo(nLines + other.nLines, nWords + other.nWords, nBytes + other.nBytes, nChars + other.nChars)
    }

    /** `impl AddAssign for FileInfo`: `*self` is overwritten with the
        field-wise sums. A FileInfo is a value, so the method returns the
        new value of `*self`. */
    method AddAssign(other: FileInfo) returns (self': FileInfo)
      ensures self' == Add(other)
      ensures self'.nLines >= nLines && self'.nWords >= nWords && self'.nBytes >= nBytes && self'.nChars >= nChars
    {
      self' := FileInfo(
        nLines := nLines + other.nLines,
        nWords := nWords + other.nWords,
        nBytes := nBytes + other.nBytes,
        nChars := nChars + other.nChars);
    }
  }

  /** FileInfo::new() is the neutral element of addition, so a total that
      starts from it and adds every file is the sum of the files. */
  lemma NewIsNeutral(x: FileInfo)
    ensures FileInfo.New().Add(x) == x
    ensures x.Add(FileInfo.New()) == x
  {
  }

  /** The counts of an input, stated on the whole text: one line per
      read_line chunk, its words, its UTF-8 bytes and its characters. */
  function Stats(input: string): FileInfo {
    FileInfo(|Lines(input)|, WordCount(input), ByteLen(input), |input|)
  }

  /** The counts of two inputs read one after the other are the sum of
      their counts, when the first ends a line. */
  lemma StatsAppend(a: string, b: string)
    requires EndsLine(a)
    ensures Stats(a + b) == Stats(a).Add(Stats(b))
  {
    LinesAppend(a, b);
    WordCountAppend(a, b);
    ByteLenAppend(a, b);
    assert |Lines(a + b)| == |Lines(a)| + |Lines(b)|;
  }

  /** What reading one chunk takes off each count of the remaining input. */
  lemma CountStep(rest: string)
    requires rest != []
    ensures var chunk := ReadLine(rest); var next := rest[|chunk|..];
      && |Lines(rest)| == 1 + |Lines(next)|
      && WordCount(rest) == WordCount(chunk) + WordCount(next)
      && ByteLen(rest) == ByteLen(chunk) + ByteLen(next)
      && |rest| == |chunk| + |next|
  {
    var chunk := ReadLine(rest);
    var next := rest[|chunk|..];
    assert rest == chunk + next;
    if next != [] {
      WordCountAppend(chunk, next);
    } else {
      assert rest == chunk;
    }
    ByteLenAppend(chunk, next);
  }

  /** count: read the input line by line, adding up each line's counts.
      The result is the count of the whole text: read_line chunks never
      split a word, and together they are the input. */
  method Count(input: string) returns (info: FileInfo)
    ensures info.nLines == |Lines(input)|
    ensures info.nWords == WordCount(input)
    ensures info.nBytes == ByteLen(input)
    ensures info.nChars == |input|
  {
    var nLines, nWords, nBytes, nChars := 0, 0, 0, 0;
    var line: string := "";
    var rest := input;
    while true
      invariant line == ""
      invariant nLines + |Lines(rest)| == |Lines(input)|
      invariant nWords + WordCount(rest) == WordCount(input)
      invariant nBytes + ByteLen(rest) == ByteLen(input)
      invariant nChars + |rest| == |input|
      decreases |rest|
    {
      var chunk := ReadLine(rest);
      line := line + chunk;
      assert line == chunk;
      var nBytesRead := ByteLen(chunk);
      if nBytesRead == 0 {
        break;
      }
      var next := rest[|chunk|..];
      CountStep(rest);
      rest := next;

      nLines := nLines + 1;
      nWords := nWords + WordCount(line);
      nBytes := nBytes + ByteLen(line);
      nChars := nChars + |line|;

      line := "";
    }
    info := FileInfo(nLines, nWords, nBytes, nChars);
  }

  /** The text of the crate's own test of count, written as its words, each
      with the whitespace after it. */
  const TestText: string :=
    "I " + "don't " + "want " + "the " + "world. " + "I " + "just " + "want " + "your " + "half.\r\n"

  /** That text is one line of 10 words, 48 characters and 48 bytes. */
  lemma CountExample()
    ensures Stats(TestText) == FileInfo(1, 10, 48, 48)
  {
    CountExampleLines();
    CountExampleBytes();
    CountExampleWords();
  }

  /** Every piece of the test text is one word followed by whitespace. */
  lemma TestPieces()
    ensures TestPiece("I ")
    ensures TestPiece("don't ")
    ensures TestPiece("want ")
    ensures TestPiece("the ")
    ensures TestPiece("world. ")
    ensures TestPiece("just ")
    ensures TestPiece("your ")
    ensures TestPiece("half.\r\n")
  {
    TestPiecesIDont();
    TestPiecesWantThe();
    TestPieceWorld();
    TestPieceJust();
    TestPieceYour();
    TestPieceHalf();
  }

  lemma TestPiecesIDont()
    ensures TestPiece("I ")
    ensures TestPiece("don't ")
  {
    TestPieceFacts("I ", 1);
    TestPieceFacts("don't ", 5);
  }

  lemma TestPiecesWantThe()
    ensures TestPiece("want ")
    ensures TestPiece("the ")
  {
    TestPieceFacts("want ", 4);
    TestPieceFacts("the ", 3);
  }

  lemma TestPieceWorld()
    ensures TestPiece("world. ")
  {
    TestPieceFacts("world. ", 6);
  }

  lemma TestPieceJust()
    ensures TestPiece("just ")
  {
    TestPieceFacts("just ", 4);
  }

  lemma TestPieceYour()
    ensures TestPiece("your ")
  {
    TestPieceFacts("your ", 4);
  }

  lemma TestPieceHalf()
    ensures TestPiece("half.\r\n")
  {
    TestPieceFacts("half.\r\n", 5);
  }

  /** What the test text's pieces have in common, as the example needs it:
      a single word, one byte per character, the '\n's lying after the word,
      and whitespace at the end. */
  predicate TestPiece(p: string) {
    && |p| > 0
    && WordCount(p) == 1
    && ByteLen(p) == |p|
    && Occurrences(p, '\n') == (if p[|p| - 1] == '\n' then 1 else 0)
    && IsWhitespace(p[|p| - 1])
  }

  /** A piece of the test text: n printable ASCII characters, then ASCII
      whitespace. */
  lemma TestPieceFacts(p: string, n: nat)
    requires 0 < n < |p|
    requires forall i | 0 <= i < n :: '!' <= p[i] <= '~'
    requires forall i | n <= i < |p| - 1 :: p[i] == ' ' || p[i] == '\r'
    requires p[|p| - 1] == ' ' || p[|p| - 1] == '\n'
    ensures TestPiece(p)
  {
    var w, sp := p[..n], p[n..];
    assert p == w + sp;
    OneWord(w, sp);
    ByteLenAscii(p);
    var init, last := p[..|p| - 1], p[|p| - 1..];
    assert p == init + last;
    OccurrencesAppend(init, last, '\n');
    NoOccurrences(init, '\n');
  }

  /** A word followed by whitespace counts as one word. */
  lemma {:induction false} OneWord(w: string, sp: string)
    requires |w| > 0 && forall i | 0 <= i < |w| :: !IsWhitespace(w[i])
    requires |sp| > 0 && forall i | 0 <= i < |sp| :: IsWhitespace(sp[i])
    ensures WordCount(w + sp) == 1
    decreases |w|
  {
    var s := w + sp;
    assert s[1..] == w[1..] + sp;
    if |w| == 1 {
      assert s[1..] == sp;
      WordCountBlank(sp);
    } else {
      OneWord(w[1..], sp);
    }
  }

  lemma CountExampleLines()
    ensures |Lines(TestText)| == 1 && |TestText| == 48
  {
    TestPieces();
    var q0 := "I ";
    var q1 := q0 + "don't ";
    var q2 := q1 + "want ";
    var q3 := q2 + "the ";
    var q4 := q3 + "world. ";
    var q5 := q4 + "I ";
    var q6 := q5 + "just ";
    var q7 := q6 + "want ";
    var q8 := q7 + "your ";
    var q9 := q8 + "half.\r\n";
    OccurrencesAppend(q0, "don't ", '\n');
    OccurrencesAppend(q1, "want ", '\n');
    OccurrencesAppend(q2, "the ", '\n');
    OccurrencesAppend(q3, "world. ", '\n');
    OccurrencesAppend(q4, "I ", '\n');
    OccurrencesAppend(q5, "just ", '\n');
    OccurrencesAppend(q6, "want ", '\n');
    OccurrencesAppend(q7, "your ", '\n');
    OccurrencesAppend(q8, "half.\r\n", '\n');
    LinesCount(TestText);
  }

  lemma CountExampleBytes()
    ensures ByteLen(TestText) == 48
  {
    TestPieces();
    var q0 := "I ";
    var q1 := q0 + "don't ";
    var q2 := q1 + "want ";
    var q3 := q2 + "the ";
    var q4 := q3 + "world. ";
    var q5 := q4 + "I ";
    var q6 := q5 + "just ";
    var q7 := q6 + "want ";
    var q8 := q7 + "your ";
    var q9 := q8 + "half.\r\n";
    ByteLenAppend(q0, "don't ");
    ByteLenAppend(q1, "want ");
    ByteLenAppend(q2, "the ");
    ByteLenAppend(q3, "world. ");
    ByteLenAppend(q4, "I ");
    ByteLenAppend(q5, "just ");
    ByteLenAppend(q6, "want ");
    ByteLenAppend(q7, "your ");
    ByteLenAppend(q8, "half.\r\n");
  }

  lemma CountExampleWords()
    ensures WordCount(TestText) == 10
  {
    TestPieces();
    var q0 := "I ";
    var q1 := q0 + "don't ";
    var q2 := q1 + "want ";
    var q3 := q2 + "the ";
    var q4 := q3 + "world. ";
    var q5 := q4 + "I ";
    var q6 := q5 + "just ";
    var q7 := q6 + "want ";
    var q8 := q7 + "your ";
    var q9 := q8 + "half.\r\n";
    WordCountAppend(q0, "don't ");
    WordCountAppend(q1, "want ");
    WordCountAppend(q2, "the ");
    WordCountAppend(q3, "world. ");
    WordCountAppend(q4, "I ");
    WordCountAppend(q5, "just ");
    WordCountAppend(q6, "want ");
    WordCountAppend(q7, "your ");
    WordCountAppend(q8, "half.\r\n");
  }

  /** The output flags of wcr. */
  class Args {
    var lines: bool
    var words: bool
    var bytes: bool
    var chars: bool

    constructor (lines: bool, words: bool, bytes: bool, chars: bool)
      ensures this.lines == lines && this.words == words
      ensures this.bytes == bytes && this.chars == chars
    {
      this.lines, this.words, this.bytes, this.chars := lines, words, bytes, chars;
    }

    /** set_defaults: with no column chosen, show lines, words and bytes;
        otherwise change nothing. Afterwards some column is chosen. */
    method SetDefaults()
      modifies this
      ensures if !old(lines) && !old(words) && !old(bytes) && !old(chars)
        then lines && words && bytes && !chars
        else lines == old(lines) && words == old(words) && bytes == old(bytes) && chars == old(chars)
      ensures lines || words || bytes || chars
    {
      var flags := [lines, words, bytes, chars];
      if forall i | 0 <= i < |flags| :: !flags[i] {
        assert !flags[0] && !flags[1] && !flags[2] && !flags[3];
        lines := true;
        words := true;
        bytes := true;
      } else {
        assert flags[0] || flags[1] || flags[2] || flags[3];
      }
    }
  }

  /** ns, followed by n when show is set. */
  function Include(ns: seq<nat>, show: bool, n: nat): seq<nat> {
    if show then ns + [n] else ns
  }

  /** The counts print_stats shows, in its column order: lines, words,
      chars, bytes, each only when its flag is set. */
  function Selected(stats: FileInfo, lines: bool, words: bool, chars: bool, bytes: bool): seq<nat> {
    Include(Include(Include(Include([], lines, stats.nLines), words, stats.nWords), chars, stats.nChars), bytes, stats.nBytes)
  }

  /** `format!("{:>8}", n)`: n right-aligned in eight columns. */
  function Column(n: nat): string {
    PadLeft(Show(n), 8)
  }

  /** The counts one after the other, each in its column. */
  function Columns(ns: seq<nat>): string {
    if ns == [] then "" else Column(ns[0]) + Columns(ns[1..])
  }

  lemma {:induction false} ColumnsSnoc(ns: seq<nat>, n: nat)
    ensures Columns(ns + [n]) == Columns(ns) + Column(n)
  {
    if ns == [] {
      assert ns + [n] == [n];
    } else {
      assert (ns + [n])[1..] == ns[1..] + [n];
      ColumnsSnoc(ns[1..], n);
    }
  }

  /** One `if flag { statline += &format!("{:>8}", n); }` of print_stats:
      the line built so far stays the columns of the counts shown so far. */
  lemma ColumnStep(shown: seq<nat>, statline: string, show: bool, n: nat, statline': string)
    requires statline == Columns(shown)
    requires statline' == if show then statline + Column(n) else statline
    ensures statline' == Columns(Include(shown, show, n))
  {
    if show {
      ColumnsSnoc(shown, n);
    }
  }

  /** A count below 10^8 fills its column exactly. */
  lemma ColumnWidth(n: nat)
    requires n < 100_000_000
    ensures |Column(n)| == 8
  {
    assert Pow10(8) == 100_000_000;
    ShowWidth(n, 8);
  }

  /** With every count below 10^8, the line holds eight characters per
      count. */
  lemma {:induction false} ColumnsLength(ns: seq<nat>)
    requires forall i | 0 <= i < |ns| :: ns[i] < 100_000_000
    ensures |Columns(ns)| == 8 * |ns|
  {
    if ns != [] {
      ColumnWidth(ns[0]);
      ColumnsLength(ns[1..]);
    }
  }

  /** With every count below 10^8, column k of the line is characters
      8k to 8k+8 and holds count k right-aligned. */
  lemma {:induction false} ColumnsLayout(ns: seq<nat>, k: nat)
    requires forall i | 0 <= i < |ns| :: ns[i] < 100_000_000
    requires k < |ns|
    ensures |Columns(ns)| == 8 * |ns|
    ensures Columns(ns)[8 * k..8 * k + 8] == Column(ns[k])
  {
    ColumnsLength(ns);
    ColumnWidth(ns[0]);
    var head, tail := Column(ns[0]), Columns(ns[1..]);
    assert Columns(ns) == head + tail;
    if k == 0 {
      SliceAppend(head, tail, 0, 0);
    } else {
      ColumnsLayout(ns[1..], k - 1);
      assert ns[1..][k - 1] == ns[k];
      SliceAppend(head, tail, 8 * (k - 1), 8 * (k - 1) + 8);
    }
  }

  lemma SliceAppend(a: string, b: string, x: nat, y: nat)
    requires x <= y <= |b|
    ensures (a + b)[..|a|] == a
    ensures (a + b)[|a| + x..|a| + y] == b[x..y]
  {
  }

  /** What print_stats puts after the columns: the file name, unless the
      input is stdin ("-"). */
  function NameSuffix(filename: string): string {
    if filename == "-" then "" else " " + filename
  }

  const BothCharsAndBytes: string := "Cannot print both chars and bytes."

  /** print_stats without the final println: the line it prints, or its
      panic when both chars and bytes are asked for. */
  method PrintStats(stats: FileInfo, filename: string, lines: bool, words: bool, chars: bool, bytes: bool)
    returns (r: Result<string>)
    ensures r.Err? <==> chars && bytes
    ensures r.Err? ==> r.error == BothCharsAndBytes
    ensures r.Ok? ==> r.value == Columns(Selected(stats, lines, words, chars, bytes)) + NameSuffix(filename)
  {
    if chars && bytes {
      return Err(BothCharsAndBytes);
    }
    var statline := "";
    ghost var statline0 := statline;
    if lines {
      statline := statline + Column(stats.nLines);
    }
    ColumnStep([], statline0, lines, stats.nLines, statline);
    statline0 := statline;
    if words {
      statline := statline + Column(stats.nWords);
    }
    ColumnStep(Include([], lines, stats.nLines), statline0, words, stats.nWords, statline);
    statline0 := statline;
    if chars {
      statline := statline + Column(stats.nChars);
    }
    ColumnStep(Include(Include([], lines, stats.nLines), words, stats.nWords), statline0, chars, stats.nChars, statline);
    statline0 := statline;
    if bytes {
      statline := statline + Column(stats.nBytes);
    }
    ColumnStep(Include(Include(Include([], lines, stats.nLines), words, stats.nWords), chars, stats.nChars),
      statline0, bytes, stats.nBytes, statline);
    if filename != "-" {
      statline := statline + (" " + filename);
    }
    return Ok(statline);
  }
}
