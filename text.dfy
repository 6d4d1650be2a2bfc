/** The GLib string utilities the client leans on, with their ASCII behaviour:
    g_ascii_isspace, g_strstrip, g_ascii_strup, g_strsplit (at most two pieces),
    g_strsplit_set, g_str_has_prefix, and printf's %zu conversion. */
module Text {
  import opened Wrappers

  // ---------------------------------------------------------------------------
  // Whitespace and g_strstrip

  /** g_ascii_isspace: space, tab, line feed, vertical tab, form feed, carriage return. */
  predicate IsSpace(c: char) {
    c == ' ' || c == '\t' || c == '\n' || c == '\U{000B}' || c == '\U{000C}' || c == '\r'
  }

  predicate AllSpace(s: string) {
    forall k :: 0 <= k < |s| ==> IsSpace(s[k])
  }

  /** Neither the first nor the last character is whitespace. */
  predicate Stripped(s: string) {
    s != [] ==> !IsSpace(s[0]) && !IsSpace(s[|s| - 1])
  }

  /** g_strchug: drops the leading whitespace, and only that. */
  function TrimStart(s: string): (r: string)
    ensures |r| <= |s| && r == s[|s| - |r|..]
    ensures forall k :: 0 <= k < |s| - |r| ==> IsSpace(s[k])
    ensures r != [] ==> !IsSpace(r[0])
  {
    if s != [] && IsSpace(s[0]) then TrimStart(s[1..]) else s
  }

  /** g_strchomp: drops the trailing whitespace, and only that. */
  function TrimEnd(s: string): (r: string)
    ensures |r| <= |s| && r == s[..|r|]
    ensures forall k :: |r| <= k < |s| ==> IsSpace(s[k])
    ensures r != [] ==> !IsSpace(r[|r| - 1])
  {
    if s != [] && IsSpace(s[|s| - 1]) then TrimEnd(s[..|s| - 1]) else s
  }

  /** g_strstrip: both ends. */
  function Strip(s: string): (r: string)
    ensures Stripped(r) && |r| <= |s|
    ensures Stripped(s) ==> r == s
  {
    var t := TrimStart(s);
    var r := TrimEnd(t);
    assert r != [] ==> r[0] == t[0];
    assert Stripped(s) && s != [] ==> t == s && r == t;
    r
  }

  lemma {:induction false} TrimStartPadded(w: string, s: string)
    requires AllSpace(w)
    ensures TrimStart(w + s) == TrimStart(s)
    decreases |w|
  {
    if w != [] {
      assert w + s == [w[0]] + (w[1..] + s);
      TrimStartSpace(w[0], w[1..] + s);
      TrimStartPadded(w[1..], s);
    } else {
      assert w + s == s;
    }
  }

  lemma TrimStartSpace(c: char, t: string)
    requires IsSpace(c)
    ensures TrimStart([c] + t) == TrimStart(t)
  {
    assert ([c] + t)[1..] == t;
  }

  lemma {:induction false} TrimEndPadded(s: string, w: string)
    requires AllSpace(w)
    ensures TrimEnd(s + w) == TrimEnd(s)
    decreases |w|
  {
    if w != [] {
      var n := |w| - 1;
      var x := s + w;
      assert x[|x| - 1] == w[n] && IsSpace(w[n]);
      assert TrimEnd(x) == TrimEnd(x[..|x| - 1]);
      assert x[..|x| - 1] == s + w[..n];
      TrimEndPadded(s, w[..n]);
    } else {
      assert s + w == s;
    }
  }

  lemma {:induction false} TrimStartAppend(s: string, w: string)
    requires AllSpace(w)
    ensures TrimStart(s + w) == if AllSpace(s) then [] else TrimStart(s) + w
    decreases |s|
  {
    if s == [] {
      assert s + w == w;
      TrimStartPadded(w, []);
      assert w + [] == w;
    } else if IsSpace(s[0]) {
      assert s + w == [s[0]] + (s[1..] + w) && s == [s[0]] + s[1..];
      TrimStartSpace(s[0], s[1..] + w);
      TrimStartSpace(s[0], s[1..]);
      TrimStartAppend(s[1..], w);
      assert AllSpace(s) <==> AllSpace(s[1..]) by {
        if AllSpace(s[1..]) {
          forall k | 0 <= k < |s| ensures IsSpace(s[k]) {
            if k > 0 { assert s[k] == s[1..][k - 1]; }
          }
        }
      }
    } else {
      assert (s + w)[0] == s[0];
      assert !AllSpace(s);
    }
  }

  /** Whitespace around a string makes no difference to g_strstrip. */
  lemma StripPadded(w1: string, s: string, w2: string)
    requires AllSpace(w1) && AllSpace(w2)
    ensures Strip(w1 + s + w2) == Strip(s)
  {
    assert w1 + s + w2 == w1 + (s + w2);
    TrimStartPadded(w1, s + w2);
    TrimStartAppend(s, w2);
    if !AllSpace(s) {
      TrimEndPadded(TrimStart(s), w2);
    } else {
      var t := TrimStart(s);
      assert |t| == 0 by {
        if |t| > 0 { assert false; }
      }
    }
  }

  lemma StripIdempotent(s: string)
    ensures Strip(Strip(s)) == Strip(s)
  {
  }

  // ---------------------------------------------------------------------------
  // g_ascii_strup

  /** g_ascii_toupper: a to z become A to Z, every other character is kept. */
  function UpperChar(c: char): (r: char)
    ensures !('a' <= r <= 'z')
    ensures 'a' <= c <= 'z' ==> r as int == c as int - 32
    ensures !('a' <= c <= 'z') ==> r == c
  {
    if 'a' <= c <= 'z' then (c as int - 32) as char else c
  }

  /** g_ascii_strup: every ASCII lower-case letter is replaced by its capital. */
  function AsciiUpper(s: string): (r: string)
    ensures |r| == |s|
    ensures forall k :: 0 <= k < |s| ==> r[k] == UpperChar(s[k])
  {
    if s == [] then [] else [UpperChar(s[0])] + AsciiUpper(s[1..])
  }

  /** Two strings that differ only in ASCII letter case upper-case to the same string. */
  predicate SameIgnoringCase(a: string, b: string) {
    |a| == |b| && forall k :: 0 <= k < |a| ==> UpperChar(a[k]) == UpperChar(b[k])
  }

  lemma {:induction false} UpperIgnoresCase(a: string, b: string)
    requires SameIgnoringCase(a, b)
    ensures AsciiUpper(a) == AsciiUpper(b)
  {
    var ua, ub := AsciiUpper(a), AsciiUpper(b);
    assert |ua| == |ub|;
    forall k | 0 <= k < |ua| ensures ua[k] == ub[k] {
      assert ua[k] == UpperChar(a[k]);
    }
  }

  // ---------------------------------------------------------------------------
  // Prefixes

  /** g_str_has_prefix */
  predicate HasPrefix(s: string, p: string) {
    |p| <= |s| && s[..|p|] == p
  }

  // ---------------------------------------------------------------------------
  // Splitting

  predicate Avoids(s: string, seps: set<char>) {
    forall k :: 0 <= k < |s| ==> s[k] !in seps
  }

  predicate AllAvoid(parts: seq<string>, seps: set<char>) {
    forall i :: 0 <= i < |parts| ==> Avoids(parts[i], seps)
  }

  /** Cuts s at every character of seps. Adjacent separators yield empty pieces, so there
      is always one piece more than there are separators. */
  function Split(s: string, seps: set<char>): (r: seq<string>)
    ensures |r| >= 1
    ensures AllAvoid(r, seps)
    decreases |s|
  {
    if s == [] then [[]]
    else
      var rest := Split(s[1..], seps);
      if s[0] in seps then [[]] + rest
      else [[s[0]] + rest[0]] + rest[1..]
  }

  /** The inverse of Split for a single separator. */
  function Join(parts: seq<string>, sep: char): string
    requires |parts| >= 1
    decreases |parts|
  {
    if |parts| == 1 then parts[0] else parts[0] + [sep] + Join(parts[1..], sep)
  }

  /** A piece free of separators is glued onto the first piece of what follows it. */
  lemma {:induction false} SplitPrefix(p: string, tail: string, seps: set<char>)
    requires Avoids(p, seps)
    ensures Split(p + tail, seps) == [p + Split(tail, seps)[0]] + Split(tail, seps)[1..]
    decreases |p|
  {
    if p != [] {
      assert (p + tail)[1..] == p[1..] + tail;
      assert (p + tail)[0] == p[0];
      SplitPrefix(p[1..], tail, seps);
      assert [p[0]] + (p[1..] + Split(tail, seps)[0]) == p + Split(tail, seps)[0];
    } else {
      assert p + tail == tail;
      var st := Split(tail, seps);
      assert p + st[0] == st[0];
      assert [st[0]] + st[1..] == st;
    }
  }

  lemma SplitAtSeparator(c: char, tail: string, seps: set<char>)
    requires c in seps
    ensures Split([c] + tail, seps) == [[]] + Split(tail, seps)
  {
    assert ([c] + tail)[1..] == tail;
  }

  /** Joining the pieces back with the separator gives the original string. */
  lemma {:induction false} JoinSplit(s: string, c: char)
    ensures Join(Split(s, {c}), c) == s
    decreases |s|
  {
    if s != [] {
      var rest := Split(s[1..], {c});
      JoinSplit(s[1..], c);
      if s[0] == c {
        assert Split(s, {c}) == [[]] + rest;
        assert ([[]] + rest)[1..] == rest;
        assert s == [c] + s[1..];
      } else {
        var parts := [[s[0]] + rest[0]] + rest[1..];
        assert Split(s, {c}) == parts;
        if |rest| == 1 {
          assert Join(parts, c) == [s[0]] + rest[0];
          assert s == [s[0]] + s[1..];
        } else {
          assert parts[1..] == rest[1..];
          assert Join(parts, c) == ([s[0]] + rest[0]) + [c] + Join(rest[1..], c);
          assert Join(rest, c) == rest[0] + [c] + Join(rest[1..], c);
          assert s == [s[0]] + s[1..];
        }
      }
    }
  }

  /** Splitting a joined list gives the list back, when no piece holds a separator. */
  lemma {:induction false} SplitJoin(parts: seq<string>, c: char, seps: set<char>)
    requires |parts| >= 1 && c in seps && AllAvoid(parts, seps)
    ensures Split(Join(parts, c), seps) == parts
    decreases |parts|
  {
    assert Avoids(parts[0], seps);
    if |parts| == 1 {
      SplitPrefix(parts[0], [], seps);
      assert parts[0] + [] == parts[0];
    } else {
      var tail := [c] + Join(parts[1..], c);
      assert Join(parts, c) == parts[0] + tail;
      SplitJoin(parts[1..], c, seps);
      SplitAtSeparator(c, Join(parts[1..], c), seps);
      SplitPrefix(parts[0], tail, seps);
      assert Split(tail, seps) == [[]] + parts[1..];
      assert parts[0] + [] == parts[0];
      assert parts == [parts[0]] + parts[1..];
    }
  }

  /** g_strsplit_set: as Split, except that the empty string has no pieces at all. */
  function SplitSet(s: string, seps: set<char>): (r: seq<string>)
    ensures AllAvoid(r, seps)
    ensures s != [] ==> |r| >= 1
  {
    if s == [] then [] else Split(s, seps)
  }

  /** g_strsplit (s, sep, 2): the text before the first sep, and the rest after it, or no
      rest at all (a NULL second element) when sep does not occur. */
  function SplitFirst(s: string, sep: char): (r: (string, Option<string>))
    ensures Avoids(r.0, {sep})
    ensures r.1.None? ==> r.0 == s
    ensures r.1.Some? ==> s == r.0 + [sep] + r.1.value
    decreases |s|
  {
    if s == [] then ([], None)
    else if s[0] == sep then ([], Some(s[1..]))
    else
      var (k, v) := SplitFirst(s[1..], sep);
      ([s[0]] + k, v)
  }

  /** Only the FIRST separator splits: everything after it, further separators included,
      is the second piece. */
  lemma {:induction false} SplitFirstAtFirst(k: string, sep: char, v: string)
    requires Avoids(k, {sep})
    ensures SplitFirst(k + [sep] + v, sep) == (k, Some(v))
    decreases |k|
  {
    var s := k + [sep] + v;
    if k == [] {
      assert s[0] == sep && s[1..] == v;
    } else {
      assert s[0] == k[0] && k[0] != sep;
      assert s[1..] == k[1..] + [sep] + v;
      SplitFirstAtFirst(k[1..], sep, v);
      assert [k[0]] + k[1..] == k;
    }
  }

  // ---------------------------------------------------------------------------
  // Decimal numerals (printf "%zu")

  predicate IsDigit(c: char) {
    '0' <= c <= '9'
  }

  function DigitChar(d: nat): (c: char)
    requires d < 10
    ensures IsDigit(c) && c as int - '0' as int == d
  {
    ('0' as int + d) as char
  }

  /** The digits printf writes for an unsigned value: no sign, no leading zero. */
  function DecimalString(n: nat): (r: string)
    ensures |r| >= 1 && (forall k :: 0 <= k < |r| ==> IsDigit(r[k]))
    ensures r[0] == '0' ==> n == 0
  {
    if n < 10 then [DigitChar(n)] else DecimalString(n / 10) + [DigitChar(n % 10)]
  }

  /** The value a string of decimal digits denotes. */
  function DecimalValue(s: string): nat
    requires forall k :: 0 <= k < |s| ==> IsDigit(s[k])
  {
    if s == [] then 0
    else
      var last := s[|s| - 1];
      assert IsDigit(last);
      DecimalValue(s[..|s| - 1]) * 10 + (last as int - '0' as int)
  }

  lemma {:induction false} DecimalRoundTrip(n: nat)
    ensures DecimalValue(DecimalString(n)) == n
  {
    if n >= 10 {
      DecimalRoundTrip(n / 10);
      var s := DecimalString(n);
      assert s[..|s| - 1] == DecimalString(n / 10);
    }
  }

  // ---------------------------------------------------------------------------
  // Sequences of pieces

  /** The pieces one after the other: the text of a sequence of reads. */
  function Concat<T>(pieces: seq<seq<T>>): seq<T> {
    if pieces == [] then [] else pieces[0] + Concat(pieces[1..])
  }

  lemma {:induction false} ConcatAppend<T>(a: seq<seq<T>>, b: seq<seq<T>>)
    ensures Concat(a + b) == Concat(a) + Concat(b)
    decreases |a|
  {
    if a == [] {
      assert a + b == b;
    } else {
      assert (a + b)[1..] == a[1..] + b;
      ConcatAppend(a[1..], b);
    }
  }
}
