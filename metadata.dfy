/** The testinfo.desc reader of src/metadata.c: reads arrive as chunks of arbitrary
    size, are cut into lines in a parse buffer, and every non-blank line of the form
    `KEY: value` updates a MetaData record.

    The pure functions below say what each step does (ApplyLine for parse_line, Flush for
    flush_parse_buffer, Feed for file_parse_data, ParseTestInfo for the read loop of
    parse_testinfo_from_fd); the class MetaData and the methods after it do the same work
    in place, the way the C code does, and are proved against those functions. ParseLines
    is an independent, line-by-line reading of a whole file that the chunked reader is
    proved to agree with. */
module Metadata {
  import opened Wrappers
  import opened Errors
  import opened Text

  type u64 = x: int | 0 <= x < 0x1_0000_0000_0000_0000

  /** parse_time_string (src/utils.c, not part of this model) turns a TESTTIME value into
      a number of seconds or reports an error; the model takes it as a parameter. */
  type TimeParser = string -> Result<u64, Error>

  /** The characters g_strsplit_set cuts a REQUIRES value at. */
  const DependencySeparators: set<char> := {',', ' '}

  /** The fields of MetaData that parse_line writes. */
  datatype Record = Record(name: Option<string>, maxTime: u64, dependencies: seq<string>, repodeps: seq<string>)

  /** A freshly allocated MetaData: g_slice_new0 zeroes every field. */
  const Blank := Record(None, 0, [], [])

  // ---------------------------------------------------------------------------
  // Sequence helpers

  function Reverse<T>(s: seq<T>): (r: seq<T>)
    ensures |r| == |s|
    ensures forall k :: 0 <= k < |s| ==> r[k] == s[|s| - 1 - k]
  {
    if s == [] then [] else Reverse(s[1..]) + [s[0]]
  }

  /** The tokens that are not empty, in their order. */
  function NonEmpty(tokens: seq<string>): (r: seq<string>)
    ensures |r| <= |tokens|
    ensures forall i :: 0 <= i < |r| ==> r[i] != [] && r[i] in tokens
  {
    if tokens == [] then []
    else (if tokens[0] == [] then [] else [tokens[0]]) + NonEmpty(tokens[1..])
  }

  /** Prepends the non-empty tokens one after the other, the first token first. */
  function PrependEach(tokens: seq<string>, deps: seq<string>): seq<string> {
    if tokens == [] then deps
    else PrependEach(tokens[1..], if tokens[0] == [] then deps else [tokens[0]] + deps)
  }

  /** Prepending one token at a time leaves the tokens in reverse order in front. */
  lemma {:induction false} PrependEachReverses(tokens: seq<string>, deps: seq<string>)
    ensures PrependEach(tokens, deps) == Reverse(NonEmpty(tokens)) + deps
    decreases |tokens|
  {
    if tokens != [] {
      var t := tokens[0];
      var d := if t == [] then deps else [t] + deps;
      PrependEachReverses(tokens[1..], d);
      var n := NonEmpty(tokens[1..]);
      if t == [] {
        assert NonEmpty(tokens) == n;
      } else {
        assert NonEmpty(tokens) == [t] + n;
        ReverseCons(t, n);
      }
    }
  }

  lemma ReverseCons<T>(x: T, s: seq<T>)
    ensures Reverse([x] + s) == Reverse(s) + [x]
  {
    assert ([x] + s)[1..] == s;
  }

  predicate NoNewline(s: string) {
    Avoids(s, {'\n'})
  }

  // ---------------------------------------------------------------------------
  // parse_line

  /** The key of a line: the text before its first ':', stripped and upper-cased. */
  function KeyOf(line: string): string {
    AsciiUpper(Strip(SplitFirst(line, ':').0))
  }

  /** The value of a line: the stripped text after its first ':', or None (a NULL value)
      when the line has no ':' at all. */
  function ValueOf(line: string): Option<string> {
    var rest := SplitFirst(line, ':').1;
    if rest.Some? then Some(Strip(rest.value)) else None
  }

  /** What parse_line does with a key and a value once it has cut the line: the record
      with the field the key names updated, or the error it reports. A NAME key without a
      value sets the name to NULL; a TESTTIME, REQUIRES or REPOREQUIRES key without a value
      is the abstract NullValue case. */
  function Update(rec: Record, key: string, value: Option<string>, parseTime: TimeParser): (r: Result<Record, Error>)
    ensures r.Failure? ==> key == "TESTTIME" || (value.None? && (key == "REQUIRES" || key == "REPOREQUIRES"))
    ensures r.Success? ==> (key != "TESTTIME" ==> r.value.maxTime == rec.maxTime)
    ensures r.Success? ==> (key != "NAME" ==> r.value.name == rec.name)
    ensures r.Success? ==> (key != "REQUIRES" ==> r.value.dependencies == rec.dependencies)
    ensures r.Success? ==> (key != "REPOREQUIRES" ==> r.value.repodeps == rec.repodeps)
    ensures key != "TESTTIME" && key != "NAME" && key != "REQUIRES" && key != "REPOREQUIRES" ==> r == Success(rec)
  {
    if key == "TESTTIME" then
      if value.None? then Failure(NullValue(key))
      else
        match parseTime(value.value)
        case Success(time) => Success(rec.(maxTime := time))
        case Failure(e) => Failure(e)
    else if key == "NAME" then
      Success(rec.(name := if value.Some? then Some(Strip(value.value)) else None))
    else if key == "REQUIRES" then
      if value.None? then Failure(NullValue(key))
      else
        var tokens := SplitSet(value.value, DependencySeparators);
        Success(rec.(dependencies := Reverse(NonEmpty(tokens)) + rec.dependencies))
    else if key == "REPOREQUIRES" then
      if value.None? then Failure(NullValue(key))
      else Success(rec.(repodeps := [value.value] + rec.repodeps))
    else
      Success(rec)
  }

  /** parse_line: cut the line, then update the record. Only a TESTTIME line, or a
      REQUIRES or REPOREQUIRES line without any ':', can fail; a line whose key is none of
      the four is ignored. */
  function ApplyLine(rec: Record, line: string, parseTime: TimeParser): (r: Result<Record, Error>)
    ensures r.Failure? ==>
      KeyOf(line) == "TESTTIME" || (Avoids(line, {':'}) && (KeyOf(line) == "REQUIRES" || KeyOf(line) == "REPOREQUIRES"))
    ensures (KeyOf(line) != "TESTTIME" && KeyOf(line) != "NAME" && KeyOf(line) != "REQUIRES"
             && KeyOf(line) != "REPOREQUIRES") ==> r == Success(rec)
  {
    Update(rec, KeyOf(line), ValueOf(line), parseTime)
  }

  /** A line `k:v` is cut at its first ':' only: the key is k stripped and upper-cased,
      the value is v stripped, and any further ':' stays inside the value. */
  lemma KeyValueOfLine(k: string, v: string)
    requires Avoids(k, {':'})
    ensures KeyOf(k + [':'] + v) == AsciiUpper(Strip(k))
    ensures ValueOf(k + [':'] + v) == Some(Strip(v))
  {
    SplitFirstAtFirst(k, ':', v);
  }

  /** Keys match without regard to ASCII case or surrounding whitespace. */
  lemma KeysMatchIgnoringCase(rec: Record, k1: string, k2: string, v: string, parseTime: TimeParser)
    requires Avoids(k1, {':'}) && Avoids(k2, {':'})
    requires SameIgnoringCase(Strip(k1), Strip(k2))
    ensures ApplyLine(rec, k1 + [':'] + v, parseTime) == ApplyLine(rec, k2 + [':'] + v, parseTime)
  {
    KeyValueOfLine(k1, v);
    KeyValueOfLine(k2, v);
    UpperIgnoresCase(Strip(k1), Strip(k2));
  }

  /** A run of separators in front of a text only adds empty tokens to its pieces. */
  lemma {:induction false} SeparatorRunSkipped(run: string, t: string, seps: set<char>)
    requires forall i :: 0 <= i < |run| ==> run[i] in seps
    ensures NonEmpty(Split(run + t, seps)) == NonEmpty(Split(t, seps))
    decreases |run|
  {
    if run == [] {
      assert run + t == t;
    } else {
      assert run + t == [run[0]] + (run[1..] + t);
      SplitAtSeparator(run[0], run[1..] + t, seps);
      var rest := Split(run[1..] + t, seps);
      assert ([[]] + rest)[1..] == rest;
      SeparatorRunSkipped(run[1..], t, seps);
    }
  }

  /** A non-empty run of separator characters, such as ", " or ",,". */
  predicate SeparatorRun(run: string, seps: set<char>) {
    |run| >= 1 && forall i :: 0 <= i < |run| ==> run[i] in seps
  }

  /** The tokens with runs[i] between tokens[i] and tokens[i + 1]. */
  function JoinRuns(tokens: seq<string>, runs: seq<string>): string
    requires |tokens| >= 1 && |runs| == |tokens| - 1
    decreases |tokens|
  {
    if |tokens| == 1 then tokens[0] else tokens[0] + runs[0] + JoinRuns(tokens[1..], runs[1..])
  }

  /** Tokens joined by runs of separators, a run of its own in each gap, split back into
      the same non-empty tokens: the only pieces added are the empty ones between adjacent
      separators. */
  lemma {:induction false} SplitJoinRuns(parts: seq<string>, runs: seq<string>, seps: set<char>)
    requires |parts| >= 1 && |runs| == |parts| - 1
    requires forall i :: 0 <= i < |runs| ==> SeparatorRun(runs[i], seps)
    requires AllAvoid(parts, seps)
    ensures NonEmpty(Split(JoinRuns(parts, runs), seps)) == NonEmpty(parts)
    decreases |parts|
  {
    var p := parts[0];
    assert Avoids(p, seps);
    if |parts| == 1 {
      SplitPrefix(p, [], seps);
      assert p + [] == p;
    } else {
      var sep := runs[0];
      assert SeparatorRun(sep, seps);
      var rest := JoinRuns(parts[1..], runs[1..]);
      var tail := sep + rest;
      assert JoinRuns(parts, runs) == p + tail;
      assert tail == [sep[0]] + (sep[1..] + rest);
      SplitAtSeparator(sep[0], sep[1..] + rest, seps);
      var st := Split(sep[1..] + rest, seps);
      SplitPrefix(p, tail, seps);
      assert p + [] == p;
      assert ([[]] + st)[1..] == st;
      assert Split(JoinRuns(parts, runs), seps) == [p] + st;
      assert ([p] + st)[1..] == st;
      SeparatorRunSkipped(sep[1..], rest, seps);
      SplitJoinRuns(parts[1..], runs[1..], seps);
    }
  }

  /** A REQUIRES line whose value lists tokens t1,...,tn, with a run of commas and spaces of
      its own between each two of them (as in "gcc, make,bison" or ",a"), and any whitespace
      around the value, puts the non-empty tokens in front of the dependencies already
      recorded, tn first: each token is prepended in turn, and the empty tokens that
      adjacent, leading or trailing separators give are skipped. */
  lemma RequiresPrependsInReverse(rec: Record, k: string, w1: string, tokens: seq<string>, runs: seq<string>,
                                  w2: string, parseTime: TimeParser)
    requires Avoids(k, {':'}) && AsciiUpper(Strip(k)) == "REQUIRES"
    requires |tokens| >= 1 && |runs| == |tokens| - 1
    requires forall i :: 0 <= i < |runs| ==> SeparatorRun(runs[i], DependencySeparators)
    requires AllAvoid(tokens, DependencySeparators)
    requires AllSpace(w1) && AllSpace(w2) && Stripped(JoinRuns(tokens, runs))
    ensures ApplyLine(rec, k + [':'] + w1 + JoinRuns(tokens, runs) + w2, parseTime)
         == Success(rec.(dependencies := Reverse(NonEmpty(tokens)) + rec.dependencies))
  {
    var v := JoinRuns(tokens, runs);
    var padded := w1 + v + w2;
    assert k + [':'] + w1 + v + w2 == k + [':'] + padded;
    RequiresLine(rec, k, padded, parseTime);
    StripPadded(w1, v, w2);
    TokensOfRuns(tokens, runs);
  }

  /** A REQUIRES line prepends the non-empty tokens of its stripped value, reversed. */
  lemma RequiresLine(rec: Record, k: string, v: string, parseTime: TimeParser)
    requires Avoids(k, {':'}) && AsciiUpper(Strip(k)) == "REQUIRES"
    ensures ApplyLine(rec, k + [':'] + v, parseTime)
         == Success(rec.(dependencies := Reverse(NonEmpty(SplitSet(Strip(v), DependencySeparators))) + rec.dependencies))
  {
    KeyValueOfLine(k, v);
  }

  /** The non-empty tokens g_strsplit_set finds in a value joined from runs of separators. */
  lemma TokensOfRuns(tokens: seq<string>, runs: seq<string>)
    requires |tokens| >= 1 && |runs| == |tokens| - 1
    requires forall i :: 0 <= i < |runs| ==> SeparatorRun(runs[i], DependencySeparators)
    requires AllAvoid(tokens, DependencySeparators)
    ensures NonEmpty(SplitSet(JoinRuns(tokens, runs), DependencySeparators)) == NonEmpty(tokens)
  {
    var v := JoinRuns(tokens, runs);
    SplitJoinRuns(tokens, runs, DependencySeparators);
    if v == [] {
      assert Split(v, DependencySeparators) == [[]];
    }
  }

  /** A REPOREQUIRES value is recorded whole, commas and spaces included. */
  lemma RepoRequiresKeepsValueWhole(rec: Record, k: string, v: string, parseTime: TimeParser)
    requires Avoids(k, {':'}) && AsciiUpper(Strip(k)) == "REPOREQUIRES"
    ensures ApplyLine(rec, k + [':'] + v, parseTime)
         == Success(rec.(repodeps := [Strip(v)] + rec.repodeps))
  {
    KeyValueOfLine(k, v);
  }

  /** A NAME line sets the name to its value, stripped. */
  lemma NameSetsName(rec: Record, k: string, v: string, parseTime: TimeParser)
    requires Avoids(k, {':'}) && AsciiUpper(Strip(k)) == "NAME"
    ensures ApplyLine(rec, k + [':'] + v, parseTime) == Success(rec.(name := Some(Strip(v))))
  {
    KeyValueOfLine(k, v);
    StripIdempotent(v);
  }

  /** A TESTTIME line sets the maximum time to the parsed value; when the value does not
      parse, the error is reported and the record is not touched. */
  lemma TestTimeSetsMaxTime(rec: Record, k: string, v: string, parseTime: TimeParser)
    requires Avoids(k, {':'}) && AsciiUpper(Strip(k)) == "TESTTIME"
    ensures ApplyLine(rec, k + [':'] + v, parseTime)
         == match parseTime(Strip(v))
            case Success(time) => Success(rec.(maxTime := time))
            case Failure(e) => Failure(e)
  {
    KeyValueOfLine(k, v);
  }

  // ---------------------------------------------------------------------------
  // The parse buffer: flush_parse_buffer and file_parse_data as functions

  /** The parse state between two chunks: the record so far, the partial line held in the
      parse buffer, and the first error, after which nothing more is parsed. */
  datatype Reader = Reader(meta: Record, buffer: string, error: Option<Error>)

  const Start := Reader(Blank, [], None)

  /** Removes one trailing carriage return, if there is one: a line ending in CR loses
      exactly that CR (and keeps any CR before it), any other line is kept as it is. */
  function DropCR(s: string): (r: string)
    ensures |s| > 0 && s[|s| - 1] == '\r' ==> r + ['\r'] == s
    ensures !(|s| > 0 && s[|s| - 1] == '\r') ==> r == s
  {
    if |s| > 0 && s[|s| - 1] == '\r' then s[..|s| - 1] else s
  }

  /** flush_parse_buffer: a non-empty buffer is handed to parse_line and emptied, whether or
      not the line fails. A failing line leaves the record as it was. */
  function Flush(r: Reader, parseTime: TimeParser): (f: Reader)
    requires r.error.None?
    ensures f.buffer == []
    ensures r.buffer == [] ==> f == r
    ensures f.error.Some? ==> f.meta == r.meta
  {
    if |r.buffer| > 0 then
      match ApplyLine(r.meta, r.buffer, parseTime)
      case Success(m) => Reader(m, [], None)
      case Failure(e) => Reader(r.meta, [], Some(e))
    else
      r
  }

  /** What file_parse_data does at a '\n': drop one '\r', then flush unless the line is blank.
      The buffer is empty afterwards; a blank line (or a lone CR) changes nothing else, and
      any other line is parsed without its CR. */
  function EndOfLine(r: Reader, parseTime: TimeParser): (f: Reader)
    requires r.error.None?
    ensures f.buffer == []
    ensures DropCR(r.buffer) == [] ==> f == r.(buffer := [])
    ensures DropCR(r.buffer) != [] && f.error.None? ==> ApplyLine(r.meta, DropCR(r.buffer), parseTime) == Success(f.meta)
    ensures f.error.Some? ==> ApplyLine(r.meta, DropCR(r.buffer), parseTime) == Failure(f.error.value) && f.meta == r.meta
  {
    var line := DropCR(r.buffer);
    if |line| > 0 then Flush(r.(buffer := line), parseTime) else r.(buffer := line)
  }

  /** file_parse_data, character by character: text up to a '\n' is added to the buffer, a
      '\n' ends the line. Nothing changes once an error is recorded. */
  function Feed(r: Reader, s: string, parseTime: TimeParser): (f: Reader)
    ensures r.error.Some? ==> f == r
    ensures NoNewline(r.buffer) ==> NoNewline(f.buffer)
    decreases |s|
  {
    if r.error.Some? || s == [] then r
    else if s[0] == '\n' then Feed(EndOfLine(r, parseTime), s[1..], parseTime)
    else Feed(r.(buffer := r.buffer + [s[0]]), s[1..], parseTime)
  }

  /** Feeding two pieces one after the other is feeding their concatenation: how the input
      is cut into reads makes no difference. */
  lemma {:induction false} FeedAppend(r: Reader, a: string, b: string, parseTime: TimeParser)
    ensures Feed(r, a + b, parseTime) == Feed(Feed(r, a, parseTime), b, parseTime)
    decreases |a|
  {
    if r.error.Some? {
      assert Feed(r, a, parseTime) == r;
    } else if a == [] {
      assert a + b == b;
    } else {
      assert (a + b)[0] == a[0] && (a + b)[1..] == a[1..] + b;
      if a[0] == '\n' {
        FeedAppend(EndOfLine(r, parseTime), a[1..], b, parseTime);
      } else {
        FeedAppend(r.(buffer := r.buffer + [a[0]]), a[1..], b, parseTime);
      }
    }
  }

  /** Text without a '\n' only grows the buffer. */
  lemma {:induction false} FeedRun(r: Reader, run: string, rest: string, parseTime: TimeParser)
    requires r.error.None? && NoNewline(run)
    ensures Feed(r, run + rest, parseTime) == Feed(r.(buffer := r.buffer + run), rest, parseTime)
    decreases |run|
  {
    if run == [] {
      assert run + rest == rest && r.buffer + run == r.buffer;
    } else {
      assert (run + rest)[0] == run[0] && (run + rest)[1..] == run[1..] + rest;
      assert run[0] != '\n';
      FeedRun(r.(buffer := r.buffer + [run[0]]), run[1..], rest, parseTime);
      assert r.buffer + [run[0]] + run[1..] == r.buffer + run;
    }
  }

  /** The end of parse_testinfo_from_fd: the first error, or else the final flush of a last
      line that had no '\n'. That line is parsed as it is: the final flush drops no CR. */
  function Finish(r: Reader, parseTime: TimeParser): (f: Result<Record, Error>)
    ensures r.error.Some? ==> f == Failure(r.error.value)
    ensures r.error.None? && r.buffer == [] ==> f == Success(r.meta)
    ensures r.error.None? && r.buffer != [] ==> f == ApplyLine(r.meta, r.buffer, parseTime)
  {
    if r.error.Some? then Failure(r.error.value)
    else
      var f := Flush(r, parseTime);
      if f.error.Some? then Failure(f.error.value) else Success(f.meta)
  }

  /** The reads before the first one that returns 0 bytes (end of file). */
  function UntilEof(chunks: seq<string>): (r: seq<string>)
    ensures |r| <= |chunks| && r == chunks[..|r|]
    ensures forall i :: 0 <= i < |r| ==> r[i] != []
    ensures |r| < |chunks| ==> chunks[|r|] == []
  {
    if chunks == [] || chunks[0] == [] then [] else [chunks[0]] + UntilEof(chunks[1..])
  }

  /** parse_testinfo_from_fd: a file that is not a regular file is refused before anything is
      read; otherwise every read up to end of file is fed through the parse buffer, and the
      buffer is flushed at the end. An empty file gives the zeroed record. */
  function ParseTestInfo(regularFile: bool, chunks: seq<string>, parseTime: TimeParser): (r: Result<Record, Error>)
    ensures !regularFile ==> r == Failure(Coded(Open, "Not a regular file"))
    ensures regularFile && UntilEof(chunks) == [] ==> r == Success(Blank)
  {
    if !regularFile then Failure(Coded(Open, "Not a regular file"))
    else Finish(Feed(Start, Concat(UntilEof(chunks)), parseTime), parseTime)
  }

  // ---------------------------------------------------------------------------
  // The line-by-line reading of a file

  /** A whole file read line by line. The pieces are the text cut at every '\n'; each piece
      followed by a '\n' loses one trailing '\r' and is skipped if it is then empty, and the
      last piece (the text after the last '\n') is parsed as it is unless it is empty. The
      first failing line ends the reading. */
  function ParseLines(rec: Record, lines: seq<string>, parseTime: TimeParser): Result<Record, Error>
    requires |lines| >= 1
    decreases |lines|
  {
    if |lines| == 1 then
      if lines[0] == [] then Success(rec) else ApplyLine(rec, lines[0], parseTime)
    else
      var line := DropCR(lines[0]);
      if line == [] then ParseLines(rec, lines[1..], parseTime)
      else
        match ApplyLine(rec, line, parseTime)
        case Success(m) => ParseLines(m, lines[1..], parseTime)
        case Failure(e) => Failure(e)
  }

  /** The pieces of a '\n'-free text followed by a '\n' and more text. */
  lemma LinePieces(buf: string, rest: string)
    requires NoNewline(buf)
    ensures Split(buf, {'\n'}) == [buf]
    ensures Split(buf + (['\n'] + rest), {'\n'}) == [buf] + Split(rest, {'\n'})
  {
    SplitPrefix(buf, [], {'\n'});
    assert buf + [] == buf;
    SplitAtSeparator('\n', rest, {'\n'});
    SplitPrefix(buf, ['\n'] + rest, {'\n'});
    assert ([[]] + Split(rest, {'\n'}))[1..] == Split(rest, {'\n'});
  }

  /** The chunked reader agrees with the line-by-line reading of the buffered text followed
      by the rest of the input: a line split across reads is parsed once, as a whole. */
  lemma {:induction false} FeedIsLineByLine(rec: Record, buf: string, text: string, parseTime: TimeParser)
    requires NoNewline(buf)
    ensures Finish(Feed(Reader(rec, buf, None), text, parseTime), parseTime)
         == ParseLines(rec, Split(buf + text, {'\n'}), parseTime)
    decreases |text|
  {
    var r := Reader(rec, buf, None);
    if text == [] {
      LinePieces(buf, []);
      assert buf + text == buf;
    } else if text[0] == '\n' {
      var rest := text[1..];
      assert text == ['\n'] + rest;
      LinePieces(buf, rest);
      var pieces := [buf] + Split(rest, {'\n'});
      assert pieces[1..] == Split(rest, {'\n'});
      assert Feed(r, text, parseTime) == Feed(EndOfLine(r, parseTime), rest, parseTime);
      assert [] + rest == rest;
      var line := DropCR(buf);
      if |line| > 0 {
        match ApplyLine(rec, line, parseTime)
        case Success(m) =>
          assert EndOfLine(r, parseTime) == Reader(m, [], None);
          FeedIsLineByLine(m, [], rest, parseTime);
        case Failure(e) =>
          assert EndOfLine(r, parseTime) == Reader(rec, [], Some(e));
      } else {
        assert EndOfLine(r, parseTime) == Reader(rec, [], None);
        FeedIsLineByLine(rec, [], rest, parseTime);
      }
    } else {
      var c := text[0];
      assert buf + text == (buf + [c]) + text[1..];
      assert Feed(r, text, parseTime) == Feed(Reader(rec, buf + [c], None), text[1..], parseTime);
      FeedIsLineByLine(rec, buf + [c], text[1..], parseTime);
    }
  }

  /** The whole file, read in any chunks, is parsed as the line-by-line reading of the text
      before end of file. */
  lemma ParseTestInfoIsLineByLine(chunks: seq<string>, parseTime: TimeParser)
    ensures ParseTestInfo(true, chunks, parseTime)
         == ParseLines(Blank, Split(Concat(UntilEof(chunks)), {'\n'}), parseTime)
  {
    var text := Concat(UntilEof(chunks));
    FeedIsLineByLine(Blank, [], text, parseTime);
    assert [] + text == text;
  }

  // ---------------------------------------------------------------------------
  // The imperative reader

  /** The loop of parse_line over the tokens of a REQUIRES value: each non-empty token is
      prepended to the dependencies in turn. */
  method PrependTokens(tokens: seq<string>, deps: seq<string>) returns (r: seq<string>)
    ensures r == Reverse(NonEmpty(tokens)) + deps
  {
    r := deps;
    var k := 0;
    while k < |tokens|
      invariant 0 <= k <= |tokens|
      invariant PrependEach(tokens[k..], r) == PrependEach(tokens, deps)
    {
      assert tokens[k..][1..] == tokens[k + 1..];
      if tokens[k] != [] {
        r := [tokens[k]] + r;
      }
      k := k + 1;
    }
    PrependEachReverses(tokens, deps);
  }

  /** The MetaData record, updated in place by parse_line. */
  class MetaData {
    var name: Option<string>
    var maxTime: u64
    var dependencies: seq<string>
    var repodeps: seq<string>

    function Value(): Record
      reads this
    {
      Record(name, maxTime, dependencies, repodeps)
    }

    constructor ()
      ensures Value() == Blank
    {
      name, maxTime, dependencies, repodeps := None, 0, [], [];
    }

    /** parse_line: cut the line at its first ':', strip both halves, upper-case the key and
        update the field the key names. A failing line changes nothing. */
    method ParseLine(line: string, parseTime: TimeParser) returns (err: Option<Error>)
      modifies this
      ensures match ApplyLine(old(Value()), line, parseTime)
        case Success(m) => err.None? && Value() == m
        case Failure(e) => err == Some(e) && Value() == old(Value())
    {
      var (rawKey, rawValue) := SplitFirst(line, ':');
      var key := AsciiUpper(Strip(rawKey));
      var value := if rawValue.Some? then Some(Strip(rawValue.value)) else None;
      assert key == KeyOf(line) && value == ValueOf(line);
      err := UpdateField(key, value, parseTime);
    }

    /** The second half of parse_line: the field the key names is updated. */
    method UpdateField(key: string, value: Option<string>, parseTime: TimeParser) returns (err: Option<Error>)
      modifies this
      ensures match Update(old(Value()), key, value, parseTime)
        case Success(m) => err.None? && Value() == m
        case Failure(e) => err == Some(e) && Value() == old(Value())
    {
      ghost var before := Value();
      err := None;
      if key == "TESTTIME" {
        if value.None? {
          return Some(NullValue(key));
        }
        var time := parseTime(value.value);
        if time.Failure? {
          return Some(time.error);
        }
        maxTime := time.value;
        assert Update(before, key, value, parseTime) == Success(before.(maxTime := time.value));
      } else if key == "NAME" {
        name := if value.Some? then Some(Strip(value.value)) else None;
      } else if key == "REQUIRES" {
        if value.None? {
          return Some(NullValue(key));
        }
        dependencies := PrependTokens(SplitSet(value.value, DependencySeparators), dependencies);
      } else if key == "REPOREQUIRES" {
        if value.None? {
          return Some(NullValue(key));
        }
        repodeps := [value.value] + repodeps;
      }
    }
  }

  /** The GString that carries a partial line from one read to the next. */
  class ParseBuffer {
    var str: string

    constructor ()
      ensures str == []
    {
      str := [];
    }
  }

  /** flush_parse_buffer */
  method FlushParseBuffer(metadata: MetaData, buffer: ParseBuffer, parseTime: TimeParser) returns (err: Option<Error>)
    modifies metadata, buffer
    ensures Reader(metadata.Value(), buffer.str, err)
         == Flush(Reader(old(metadata.Value()), old(buffer.str), None), parseTime)
  {
    err := None;
    if |buffer.str| > 0 {
      err := metadata.ParseLine(buffer.str, parseTime);
      buffer.str := [];
    }
  }

  /** memchr for '\n' from position i: the position of the next '\n', or the end. */
  function NextNewline(data: string, i: nat): (j: nat)
    requires i <= |data|
    ensures i <= j <= |data|
    ensures forall k :: i <= k < j ==> data[k] != '\n'
    ensures j < |data| ==> data[j] == '\n'
    decreases |data| - i
  {
    if i == |data| || data[i] == '\n' then i else NextNewline(data, i + 1)
  }

  /** file_parse_data: walks the chunk with an index; a '\n' ends the line in the buffer, and
      any other text up to the next '\n' is appended to the buffer in one piece. Returns at
      the first failing line. */
  method FileParseData(metadata: MetaData, buffer: ParseBuffer, data: string, parseTime: TimeParser)
    returns (err: Option<Error>)
    modifies metadata, buffer
    ensures Reader(metadata.Value(), buffer.str, err)
         == Feed(Reader(old(metadata.Value()), old(buffer.str), None), data, parseTime)
  {
    ghost var start := Reader(metadata.Value(), buffer.str, None);
    err := None;
    var i := 0;
    while i < |data|
      invariant 0 <= i <= |data|
      invariant err.None?
      invariant Feed(start, data, parseTime) == Feed(Reader(metadata.Value(), buffer.str, None), data[i..], parseTime)
    {
      if data[i] == '\n' {
        ghost var before := Reader(metadata.Value(), buffer.str, None);
        assert data[i..][1..] == data[i + 1..];
        if |buffer.str| > 0 && buffer.str[|buffer.str| - 1] == '\r' {
          buffer.str := buffer.str[..|buffer.str| - 1];
        }
        if |buffer.str| > 0 {
          err := FlushParseBuffer(metadata, buffer, parseTime);
        }
        assert Reader(metadata.Value(), buffer.str, err) == EndOfLine(before, parseTime);
        if err.Some? {
          return;
        }
        i := i + 1;
      } else {
        var j := NextNewline(data, i);
        assert data[i..] == data[i..j] + data[j..];
        FeedRun(Reader(metadata.Value(), buffer.str, None), data[i..j], data[j..], parseTime);
        buffer.str := buffer.str + data[i..j];
        i := j;
      }
    }
  }

  lemma {:induction false} UntilEofSplit(chunks: seq<string>, k: nat)
    requires k <= |chunks| && forall i :: 0 <= i < k ==> chunks[i] != []
    ensures UntilEof(chunks) == chunks[..k] + UntilEof(chunks[k..])
    decreases k
  {
    if k == 0 {
      assert chunks[..0] == [] && chunks[0..] == chunks;
    } else {
      assert chunks[0] != [];
      assert UntilEof(chunks) == [chunks[0]] + UntilEof(chunks[1..]);
      UntilEofSplit(chunks[1..], k - 1);
      assert chunks[1..][k - 1..] == chunks[k..];
      assert [chunks[0]] + chunks[1..][..k - 1] == chunks[..k];
    }
  }

  lemma ConcatSnoc(chunks: seq<string>, k: nat)
    requires k < |chunks|
    ensures Concat(chunks[..k + 1]) == Concat(chunks[..k]) + chunks[k]
  {
    assert chunks[..k + 1] == chunks[..k] + [chunks[k]];
    ConcatAppend(chunks[..k], [chunks[k]]);
    assert [chunks[k]][1..] == [];
    assert Concat([chunks[k]]) == chunks[k] + Concat([]);
  }

  /** One more read fed through the parse buffer. */
  lemma FeedNextChunk(chunks: seq<string>, k: nat, parseTime: TimeParser)
    requires k < |chunks|
    ensures Feed(Start, Concat(chunks[..k + 1]), parseTime)
         == Feed(Feed(Start, Concat(chunks[..k]), parseTime), chunks[k], parseTime)
  {
    FeedAppend(Start, Concat(chunks[..k]), chunks[k], parseTime);
    ConcatSnoc(chunks, k);
  }

  /** When the read loop stops (at end of file, or at the first failing line), what it has
      fed is what the whole file feeds. */
  lemma ReadLoopExit(chunks: seq<string>, k: nat, parseTime: TimeParser)
    requires k <= |chunks| && forall i :: 0 <= i < k ==> chunks[i] != []
    requires k == |chunks| || chunks[k] == [] || Feed(Start, Concat(chunks[..k]), parseTime).error.Some?
    ensures Feed(Start, Concat(UntilEof(chunks)), parseTime) == Feed(Start, Concat(chunks[..k]), parseTime)
  {
    var r := Feed(Start, Concat(chunks[..k]), parseTime);
    var rest := Concat(UntilEof(chunks[k..]));
    UntilEofSplit(chunks, k);
    ConcatAppend(chunks[..k], UntilEof(chunks[k..]));
    FeedAppend(Start, Concat(chunks[..k]), rest, parseTime);
    if r.error.None? {
      assert UntilEof(chunks[k..]) == [];
    }
  }

  /** parse_testinfo_from_fd, with the file's reads given as a sequence of chunks: a read of
      0 bytes (or running out of chunks) is end of file. The loop stops at the first failing
      line; otherwise the buffer is flushed once more at the end. */
  method ParseTestInfoFromFd(regularFile: bool, chunks: seq<string>, parseTime: TimeParser)
    returns (result: Result<Record, Error>)
    ensures result == ParseTestInfo(regularFile, chunks, parseTime)
  {
    var metadata := new MetaData();
    var buffer := new ParseBuffer();
    if !regularFile {
      return Failure(Coded(Open, "Not a regular file"));
    }
    var err: Option<Error> := None;
    var k := 0;
    while k < |chunks|
      invariant 0 <= k <= |chunks|
      invariant forall i :: 0 <= i < k ==> chunks[i] != []
      invariant err.None?
      invariant Reader(metadata.Value(), buffer.str, err) == Feed(Start, Concat(chunks[..k]), parseTime)
    {
      if chunks[k] == [] {
        break;
      }
      err := FileParseData(metadata, buffer, chunks[k], parseTime);
      FeedNextChunk(chunks, k, parseTime);
      k := k + 1;
      if err.Some? {
        break;
      }
    }
    ReadLoopExit(chunks, k, parseTime);
    if err.Some? {
      return Failure(err.value);
    }
    err := FlushParseBuffer(metadata, buffer, parseTime);
    if err.Some? {
      return Failure(err.value);
    }
    return Success(metadata.Value());
  }
}
