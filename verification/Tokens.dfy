/** Splitting a line into tokens, and why the scan finds exactly the maximal runs of non-delimiters. */
module Tokens {

  /** The tokens completed so far and the one being read. */
  datatype Scanned = Scanned(done: seq<string>, current: string)

  function Scan(s: string, d: set<char>): Scanned {
    if s == [] then Scanned([], "") else ReadChar(Scan(s[..|s| - 1], d), s[|s| - 1], d)
  }

  /** One more character: a delimiter ends the current token, any other lengthens it. */
  function ReadChar(r: Scanned, c: char, d: set<char>): Scanned {
    if c in d then Scanned(Flush(r), "") else r.(current := r.current + [c])
  }

  function Flush(r: Scanned): seq<string> {
    if r.current == "" then r.done else r.done + [r.current]
  }

  function Tokenized(s: string, d: set<char>): seq<string> { Flush(Scan(s, d)) }

  lemma ScanNext(s: string, i: nat, d: set<char>)
    requires i < |s|
    ensures Scan(s[..i + 1], d) == ReadChar(Scan(s[..i], d), s[i], d)
  {
    assert s[..i + 1][..i] == s[..i];
  }

  // ---- the meaning of a token

  predicate Plain(s: string, a: nat, b: nat, d: set<char>) {
    a <= b <= |s| && forall i :: a <= i < b ==> s[i] !in d
  }

  /** s[a..b] is a maximal run of characters outside d. */
  predicate Run(s: string, a: nat, b: nat, d: set<char>) {
    && a < b && Plain(s, a, b, d)
    && (a == 0 || s[a - 1] in d) && (b == |s| || s[b] in d)
  }

  /** spans lists all maximal runs that end before n, from left to right; with n past |s|, all of them. */
  ghost predicate RunsBefore(s: string, n: nat, spans: seq<(nat, nat)>, d: set<char>) {
    && n <= |s| + 1
    && (forall i :: 0 <= i < |spans| ==> spans[i].1 < n && Run(s, spans[i].0, spans[i].1, d))
    && (forall i, j :: 0 <= i < j < |spans| ==> spans[i].1 < spans[j].0)
    && (forall a: nat, b: nat {:trigger (a, b) in spans} :: b < n && Run(s, a, b, d) ==> (a, b) in spans)
  }

  function TextAt(s: string, span: (nat, nat)): string {
    if span.0 <= span.1 <= |s| then s[span.0..span.1] else ""
  }

  /** The text under each span. */
  function Texts(s: string, spans: seq<(nat, nat)>): seq<string> {
    seq(|spans|, i requires 0 <= i < |spans| => TextAt(s, spans[i]))
  }

  /** s[a..n] is plain and cannot be extended to the left: the token being read after n characters. */
  predicate Pending(s: string, a: nat, n: nat, d: set<char>) {
    Plain(s, a, n, d) && (a == 0 || s[a - 1] in d)
  }

  lemma SameStart(s: string, a: nat, x: nat, y: nat, d: set<char>)
    requires Run(s, x, y, d) && Pending(s, a, y, d)
    ensures a == x
  {
    assert forall i :: a <= i < y || x <= i < y ==> s[i] !in d;
  }

  /** A character that is no delimiter ends no run. */
  lemma RunsGoOn(s: string, n: nat, spans: seq<(nat, nat)>, d: set<char>)
    requires n < |s| && s[n] !in d && RunsBefore(s, n, spans, d)
    ensures RunsBefore(s, n + 1, spans, d)
  {
    forall a: nat, b: nat | b < n + 1 && Run(s, a, b, d) ensures (a, b) in spans {
      assert b != n && (b < n ==> (a, b) in spans);
    }
  }

  /** The pending stretch becomes a run if it is followed by a delimiter or by the end, and is the only new one. */
  lemma RunEnds(s: string, a: nat, n: nat, spans: seq<(nat, nat)>, d: set<char>) returns (more: seq<(nat, nat)>)
    requires RunsBefore(s, n, spans, d) && Pending(s, a, n, d) && (n == |s| || s[n] in d)
    ensures more == if a < n then spans + [(a, n)] else spans
    ensures RunsBefore(s, n + 1, more, d)
  {
    more := if a < n then spans + [(a, n)] else spans;
    forall i | 0 <= i < |spans| ensures a < n ==> spans[i].1 < a {
      assert Run(s, spans[i].0, spans[i].1, d);
      assert s[spans[i].1] in d;
    }
    forall x: nat, y: nat | y <= n && Run(s, x, y, d) ensures (x, y) in more {
      if y == n {
        SameStart(s, a, x, y, d);
        assert more[|more| - 1] == (x, y);
      } else {
        assert (x, y) in spans;
        assert forall i :: 0 <= i < |spans| ==> more[i] == spans[i];
      }
    }
  }

  /** After n characters: the finished runs are done, and current is the pending stretch up to n. */
  ghost predicate Scanning(s: string, n: nat, spans: seq<(nat, nat)>, r: Scanned, d: set<char>) {
    && n <= |s| && RunsBefore(s, n, spans, d) && r.done == Texts(s, spans)
    && |r.current| <= n && r.current == s[n - |r.current|..n] && Pending(s, n - |r.current|, n, d)
  }

  lemma FlushTexts(s: string, n: nat, spans: seq<(nat, nat)>, r: Scanned)
    requires |r.current| <= n <= |s| && r.current == s[n - |r.current|..n] && r.done == Texts(s, spans)
    ensures Flush(r) == Texts(s, if r.current != "" then spans + [(n - |r.current|, n)] else spans)
  {
    assert TextAt(s, (n - |r.current|, n)) == r.current;
  }

  lemma StartAfresh(s: string, n: nat, spans: seq<(nat, nat)>, done: seq<string>, d: set<char>)
    requires n < |s| && s[n] in d && done == Texts(s, spans) && RunsBefore(s, n + 1, spans, d)
    ensures Scanning(s, n + 1, spans, Scanned(done, ""), d)
  {
  }

  lemma ReadDelimiter(s: string, n: nat, spans: seq<(nat, nat)>, r: Scanned, d: set<char>)
    returns (more: seq<(nat, nat)>)
    requires n < |s| && s[n] in d && Scanning(s, n, spans, r, d)
    ensures Scanning(s, n + 1, more, Scanned(Flush(r), ""), d)
  {
    more := RunEnds(s, n - |r.current|, n, spans, d);
    FlushTexts(s, n, spans, r);
    StartAfresh(s, n, more, Flush(r), d);
  }

  lemma ReadPlain(s: string, n: nat, spans: seq<(nat, nat)>, r: Scanned, d: set<char>)
    requires n < |s| && s[n] !in d && Scanning(s, n, spans, r, d)
    ensures Scanning(s, n + 1, spans, r.(current := r.current + [s[n]]), d)
  {
    RunsGoOn(s, n, spans, d);
  }

  lemma ReadOne(s: string, n: nat, spans: seq<(nat, nat)>, r: Scanned, d: set<char>) returns (more: seq<(nat, nat)>)
    requires n < |s| && Scanning(s, n, spans, r, d)
    ensures Scanning(s, n + 1, more, ReadChar(r, s[n], d), d)
  {
    if s[n] in d {
      more := ReadDelimiter(s, n, spans, r, d);
    } else {
      more := spans;
      ReadPlain(s, n, spans, r, d);
    }
  }

  lemma {:induction false} ScanFindsRuns(s: string, n: nat, d: set<char>) returns (spans: seq<(nat, nat)>)
    requires n <= |s|
    ensures Scanning(s, n, spans, Scan(s[..n], d), d)
  {
    if n == 0 {
      spans := [];
    } else {
      var k := n - 1;
      var before := ScanFindsRuns(s, k, d);
      var r := Scan(s[..k], d);
      spans := ReadOne(s, k, before, r, d);
      assert Scan(s[..n], d) == ReadChar(r, s[k], d) by { ScanNext(s, k, d); }
    }
  }

  /** The tokens of a line are all its maximal runs of non-delimiters, in order. */
  lemma TokensAreRuns(s: string, d: set<char>) returns (spans: seq<(nat, nat)>)
    ensures Tokenized(s, d) == Texts(s, spans) && RunsBefore(s, |s| + 1, spans, d)
  {
    var before := ScanFindsRuns(s, |s|, d);
    assert s[..|s|] == s;
    var r := Scan(s, d);
    spans := RunEnds(s, |s| - |r.current|, |s|, before, d);
    FlushTexts(s, |s|, before, r);
  }

  lemma {:induction false} TokensArePlain(s: string, d: set<char>)
    ensures forall i :: 0 <= i < |Scan(s, d).done| ==> Token(Scan(s, d).done[i], d)
    ensures forall i :: 0 <= i < |Tokenized(s, d)| ==> Token(Tokenized(s, d)[i], d)
    ensures forall c :: c in Scan(s, d).current ==> c !in d
  {
    if s != [] { TokensArePlain(s[..|s| - 1], d); }
  }

  predicate Token(t: string, d: set<char>) { t != "" && forall c :: c in t ==> c !in d }

  // ---- joining and splitting

  function Join(ts: seq<string>, sep: char): string {
    if ts == [] then "" else if |ts| == 1 then ts[0]
    else Join(ts[..|ts| - 1], sep) + [sep] + ts[|ts| - 1]
  }

  /** Reading a stretch without delimiters only lengthens the current token. */
  lemma {:induction false} ScanPlain(s: string, t: string, d: set<char>)
    requires forall c :: c in t ==> c !in d
    ensures Scan(s + t, d) == Scan(s, d).(current := Scan(s, d).current + t)
  {
    if t == "" {
      assert s + t == s;
    } else {
      var n := |t| - 1;
      ScanPlain(s, t[..n], d);
      assert (s + t)[..|s + t| - 1] == s + t[..n];
      var cur := Scan(s, d).current;
      assert cur + t == (cur + t[..n]) + [t[n]];
    }
  }

  lemma ScanDelimiter(s: string, sep: char, d: set<char>)
    requires sep in d
    ensures Scan(s + [sep], d) == Scanned(Tokenized(s, d), "")
  {
    assert (s + [sep])[..|s|] == s;
  }

  /** One more token after a delimiter. */
  lemma ScanOneMore(s: string, sep: char, t: string, d: set<char>)
    requires sep in d && Token(t, d)
    ensures Scan(s + [sep] + t, d) == Scanned(Tokenized(s, d), t)
  {
    ScanDelimiter(s, sep, d);
    ScanPlain(s + [sep], t, d);
    assert "" + t == t;
  }

  /** Tokens joined by one delimiter and split again come back unchanged. */
  lemma {:induction false} SplitJoin(ts: seq<string>, sep: char, d: set<char>)
    requires sep in d && forall i :: 0 <= i < |ts| ==> Token(ts[i], d)
    ensures Tokenized(Join(ts, sep), d) == ts
  {
    if |ts| == 1 {
      ScanPlain("", ts[0], d);
      assert "" + ts[0] == ts[0];
      assert Scan("", d) == Scanned([], "");
    } else if |ts| > 1 {
      var n := |ts| - 1;
      SplitJoin(ts[..n], sep, d);
      ScanOneMore(Join(ts[..n], sep), sep, ts[n], d);
      assert ts[..n] + [ts[n]] == ts;
    }
  }

  /** A scan that drops the unfinished token loses none exactly when the line is empty or ends in a delimiter. */
  lemma NothingUnfinished(s: string, d: set<char>)
    ensures Scan(s, d).done == Tokenized(s, d) <==> s == "" || s[|s| - 1] in d
  {
    if s != [] && s[|s| - 1] !in d { assert |Scan(s, d).current| > 0; }
  }
}
