/** Exactly which lines tokenize handles within its two buffers, told from the words of the line. */
module TokenizerLimits {
  import opened Tokens

  const BLANKS: set<char> := {' ', '\n', '\t'}
  const MAX_TOKEN_SIZE: nat := 64
  const MAX_NUM_TOKENS: nat := 64

  predicate TokensFit(line: string, n: nat)
    requires n <= |line|
  {
    forall k :: 0 <= k < n ==> |Scan(line[..k], BLANKS).current| < MAX_TOKEN_SIZE
  }

  /** The lines on which every write of tokenize stays within its two buffers. */
  predicate FitsBuffers(line: string) {
    TokensFit(line, |line|) && |Scan(line, BLANKS).done| < MAX_NUM_TOKENS
  }

  predicate Blank(c: char) { c == ' ' || c == '\n' || c == '\t' }

  /** line[a..b] is a word: a stretch without blanks that cannot be made longer. */
  predicate Word(line: string, a: nat, b: nat) {
    && a < b <= |line| && (forall i :: a <= i < b ==> !Blank(line[i]))
    && (a == 0 || Blank(line[a - 1])) && (b == |line| || Blank(line[b]))
  }

  /** The words that a blank ends. */
  ghost function EndedWords(line: string): set<(nat, nat)> {
    set a: nat, b: nat | a < b < |line| && Word(line, a, b) :: (a, b)
  }

  /** At most 63 characters in a word, or 64 in one that the end of the line cuts off. */
  ghost predicate ShortWords(line: string) {
    forall a: nat, b: nat :: Word(line, a, b) ==> b - a <= 63 || (b - a == 64 && b == |line|)
  }

  lemma WordIsRun(line: string, a: nat, b: nat)
    ensures Word(line, a, b) <==> Run(line, a, b, BLANKS)
  {
  }

  lemma SamePending(s: string, a: nat, b: nat, n: nat, d: set<char>)
    requires Pending(s, a, n, d) && Pending(s, b, n, d)
    ensures a == b
  {
  }

  /** The token being read is as long as the stretch behind the position. */
  lemma CurrentLength(line: string, a: nat, n: nat)
    requires Pending(line, a, n, BLANKS)
    ensures |Scan(line[..n], BLANKS).current| == n - a
  {
    var spans := ScanFindsRuns(line, n, BLANKS);
    SamePending(line, n - |Scan(line[..n], BLANKS).current|, a, n, BLANKS);
  }

  lemma {:induction false} WordEnd(line: string, a: nat, n: nat) returns (b: nat)
    requires a < n && Pending(line, a, n, BLANKS)
    ensures n <= b && Word(line, a, b)
    decreases |line| - n
  {
    if n == |line| || line[n] in BLANKS {
      b := n;
    } else {
      b := WordEnd(line, a, n + 1);
    }
  }

  lemma ShortWordsFit(line: string)
    requires ShortWords(line)
    ensures TokensFit(line, |line|)
  {
    forall n | 0 <= n < |line| ensures |Scan(line[..n], BLANKS).current| < 64 {
      var spans := ScanFindsRuns(line, n, BLANKS);
      var a := n - |Scan(line[..n], BLANKS).current|;
      if a < n { var b := WordEnd(line, a, n); }
    }
  }

  lemma FittingWordsAreShort(line: string)
    requires TokensFit(line, |line|)
    ensures ShortWords(line)
  {
    forall a: nat, b: nat | Word(line, a, b) ensures b - a <= 63 || (b - a == 64 && b == |line|) {
      WordIsRun(line, a, b);
      CurrentLength(line, a, if b < |line| then b else b - 1);
    }
  }

  lemma {:induction false} DistinctCount<T>(xs: seq<T>) returns (members: set<T>)
    requires forall i, j :: 0 <= i < j < |xs| ==> xs[i] != xs[j]
    ensures |members| == |xs| && forall x :: x in members <==> x in xs
  {
    if xs == [] {
      members := {};
    } else {
      var n := |xs| - 1;
      var before := DistinctCount(xs[..n]);
      members := before + {xs[n]};
      assert xs == xs[..n] + [xs[n]];
    }
  }

  /** tokenize completes as many tokens as the line has words that a blank ends. */
  lemma CompletedAreEndedWords(line: string) returns (spans: seq<(nat, nat)>)
    ensures Scan(line, BLANKS).done == Texts(line, spans) && RunsBefore(line, |line|, spans, BLANKS)
    ensures |Scan(line, BLANKS).done| == |EndedWords(line)|
  {
    spans := ScanFindsRuns(line, |line|, BLANKS);
    assert line[..|line|] == line;
    var members := DistinctCount(spans);
    forall w: (nat, nat) ensures w in members <==> w in EndedWords(line) {
      WordIsRun(line, w.0, w.1);
    }
    assert members == EndedWords(line);
  }

  /**
   tokenize stays within its buffers if and only if every word has at most 63 characters, or 64 when it
   ends the line, and fewer than 64 words are followed by a blank.
   */
  lemma FitsExactlyWhen(line: string)
    ensures FitsBuffers(line) <==> ShortWords(line) && |EndedWords(line)| < 64
  {
    var spans := CompletedAreEndedWords(line);
    if TokensFit(line, |line|) { FittingWordsAreShort(line); }
    if ShortWords(line) { ShortWordsFit(line); }
  }
}
