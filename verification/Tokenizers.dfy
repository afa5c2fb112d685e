/** The two tokenizers of the shells, with their buffers. */
module Tokenizers {
  import opened Tokens
  import opened TokenizerLimits

  const SPACE: set<char> := {' '}

  /** A cell of a char*[] array. */
  datatype Cell = Null | Text(text: string)

  /** cells is the null-terminated array of these tokens. */
  predicate Lists(cells: seq<Cell>, tokens: seq<string>) {
    && |tokens| < |cells| && cells[|tokens|] == Null
    && forall i :: 0 <= i < |tokens| ==> cells[i] == Text(tokens[i])
  }

  // ---- splitCommandIntoTokens: strtok and an array that grows

  /** strtok's scan from pos: the next stretch a..b, empty at the end of the string. */
  method NextToken(s: string, pos: nat, d: set<char>) returns (a: nat, b: nat)
    requires pos <= |s|
    ensures pos <= a <= b <= |s| && Plain(s, a, b, d)
    ensures forall i :: pos <= i < a ==> s[i] in d
    ensures (a == b ==> a == |s|) && (b < |s| ==> s[b] in d)
  {
    a := pos;
    while a < |s| && s[a] in d
      invariant pos <= a <= |s| && forall i :: pos <= i < a ==> s[i] in d
    {
      a := a + 1;
    }
    b := a;
    while b < |s| && s[b] !in d
      invariant a <= b <= |s| && Plain(s, a, b, d)
    {
      b := b + 1;
    }
  }

  lemma {:induction false} SkipDelimiters(s: string, pos: nat, a: nat, d: set<char>)
    requires pos <= a <= |s| && (forall i :: pos <= i < a ==> s[i] in d) && Scan(s[..pos], d).current == ""
    ensures Scan(s[..a], d) == Scan(s[..pos], d)
  {
    if pos < a {
      SkipDelimiters(s, pos, a - 1, d);
      ScanNext(s, a - 1, d);
    }
  }

  lemma ScanFresh(before: string, t: string, d: set<char>)
    requires Scan(before, d).current == "" && forall c :: c in t ==> c !in d
    ensures Scan(before + t, d) == Scanned(Scan(before, d).done, t)
  {
    ScanPlain(before, t, d);
    assert "" + t == t;
  }

  /** One strtok call moves the scan over the next token. */
  lemma TokenRead(s: string, pos: nat, a: nat, b: nat, d: set<char>)
    requires pos <= a < b <= |s| && Plain(s, a, b, d) && Scan(s[..pos], d).current == ""
    requires forall i :: pos <= i < a ==> s[i] in d
    ensures Scan(s[..b], d) == Scanned(Scan(s[..pos], d).done, s[a..b])
  {
    SkipDelimiters(s, pos, a, d);
    ScanFresh(s[..a], s[a..b], d);
    assert s[..b] == s[..a] + s[a..b];
  }

  /** And then over the delimiter behind it, if there is one. */
  lemma TokenEnded(s: string, pos: nat, a: nat, b: nat, d: set<char>)
    requires pos <= a < b < |s| && s[b] in d && Scan(s[..b], d) == Scanned(Scan(s[..pos], d).done, s[a..b])
    ensures Scan(s[..b + 1], d) == Scanned(Scan(s[..pos], d).done + [s[a..b]], "")
  {
    ScanNext(s, b, d);
  }

  /** realloc to a larger size. */
  method Grow(cells: array<Cell>, size: nat) returns (r: array<Cell>)
    requires size >= cells.Length
    ensures fresh(r) && r.Length == size && r[..cells.Length] == cells[..]
  {
    r := new Cell[size](i => Null);
    for i := 0 to cells.Length
      invariant r[..i] == cells[..i]
    {
      r[i] := cells[i];
    }
  }

  predicate Holds(cells: seq<Cell>, tokens: seq<string>) {
    |tokens| <= |cells| && forall i :: 0 <= i < |tokens| ==> cells[i] == Text(tokens[i])
  }

  /** tokens[(*numTokens)++] = strdup(currToken), growing the array first when it is full. */
  method Append(cells: array<Cell>, ghost sofar: seq<string>, n: nat, token: string) returns (r: array<Cell>)
    requires n == |sofar| && Holds(cells[..], sofar) && cells.Length > 0
    modifies cells
    ensures (r == cells || fresh(r)) && r.Length > 0 && Holds(r[..], sofar + [token])
  {
    r := cells;
    if n >= cells.Length {
      r := Grow(cells, cells.Length * 2);
      assert forall i :: 0 <= i < n ==> r[i] == r[..cells.Length][i];
    }
    r[n] := Text(token);
  }

  /** The state of the loop before a strtok call: everything up to pos has been split. */
  ghost predicate SplitUpTo(s: string, pos: nat, tokens: seq<string>) {
    pos <= |s| && Tokenized(s[..pos], SPACE) == tokens && (pos < |s| ==> Scan(s[..pos], SPACE).current == "")
  }

  /** splitCommandIntoTokens: no array at all for a NULL command. */
  method SplitCommandIntoTokens(command: Cell) returns (cells: array?<Cell>, numTokens: nat)
    ensures command.Null? ==> cells == null && numTokens == 0
    ensures command.Text? ==>
      (cells != null && fresh(cells)
       && numTokens == |Tokenized(command.text, {' '})| && Lists(cells[..], Tokenized(command.text, {' '})))
  {
    if command.Null? {
      return null, 0;
    }
    cells, numTokens := SplitText(command.text);
  }

  /** The strtok loop of splitCommandIntoTokens. */
  method SplitText(command: string) returns (cells: array<Cell>, numTokens: nat)
    ensures fresh(cells)
    ensures numTokens == |Tokenized(command, SPACE)| && Lists(cells[..], Tokenized(command, SPACE))
  {
    cells := new Cell[10](i => Null);
    numTokens := 0;
    ghost var tokens: seq<string> := [];
    var pos := 0;
    var a, b := NextToken(command, pos, SPACE);
    while a < b
      invariant fresh(cells) && cells.Length > 0 && numTokens == |tokens| && Holds(cells[..], tokens)
      invariant SplitUpTo(command, pos, tokens)
      invariant pos <= a <= b <= |command| && Plain(command, a, b, SPACE)
      invariant (forall i :: pos <= i < a ==> command[i] in SPACE) && (b < |command| ==> command[b] in SPACE)
      invariant a == b ==> a == |command|
      decreases |command| - pos
    {
      TokenRead(command, pos, a, b, SPACE);
      if b < |command| { TokenEnded(command, pos, a, b, SPACE); }
      cells := Append(cells, tokens, numTokens, command[a..b]);
      numTokens := numTokens + 1;
      tokens := tokens + [command[a..b]];
      pos := if b < |command| then b + 1 else b;
      a, b := NextToken(command, pos, SPACE);
    }
    Finished(command, pos, a, tokens);
    if numTokens >= cells.Length {
      var larger := Grow(cells, cells.Length + 1);
      assert forall i :: 0 <= i < numTokens ==> larger[i] == larger[..cells.Length][i];
      cells := larger;
    }
    cells[numTokens] := Null;
  }

  /** Nothing but delimiters is left. */
  lemma Finished(s: string, pos: nat, a: nat, tokens: seq<string>)
    requires SplitUpTo(s, pos, tokens) && a == |s| && forall i :: pos <= i < a ==> s[i] in SPACE
    ensures Tokenized(s, SPACE) == tokens
  {
    assert s[..|s|] == s;
    if pos < |s| { SkipDelimiters(s, pos, |s|, SPACE); }
  }

  /** getNoOfTokens: the index of the first NULL. */
  method GetNoOfTokens(cells: array<Cell>) returns (count: nat)
    requires exists k :: 0 <= k < cells.Length && cells[k] == Null
    ensures count < cells.Length && cells[count] == Null && forall i :: 0 <= i < count ==> cells[i] != Null
  {
    count := 0;
    while cells[count] != Null
      invariant count < cells.Length && forall i :: 0 <= i < count ==> cells[i] != Null
      decreases cells.Length - count
    {
      count := count + 1;
    }
  }

  /** On a split command getNoOfTokens agrees with the count that splitting returned. */
  method CountAfterSplit(command: string) returns (count: nat)
    ensures count == |Tokenized(command, SPACE)|
  {
    var cells, n := SplitText(command);
    assert cells[..][n] == cells[n];
    count := GetNoOfTokens(cells);
    assert forall i :: 0 <= i < n ==> cells[..][i] == cells[i];
  }

  // ---- tokenize: a character loop over a fixed token buffer

  lemma {:induction false} DoneGrows(s: string, n: nat, d: set<char>)
    requires n <= |s|
    ensures |Scan(s[..n], d).done| <= |Scan(s, d).done|
    decreases |s| - n
  {
    if n < |s| {
      DoneGrows(s, n + 1, d);
      ScanNext(s, n, d);
    } else {
      assert s[..n] == s;
    }
  }

  /** A line that starts with a word of 64 characters and goes on is one that does not fit. */
  lemma LongWordOverflows(word: string, rest: string)
    requires |word| == 64 && rest != "" && forall c :: c in word ==> !Blank(c)
    ensures !FitsBuffers(word + rest)
  {
    ScanPlain("", word, BLANKS);
    assert "" + word == word && Scan("", BLANKS) == Scanned([], "");
    assert (word + rest)[..MAX_TOKEN_SIZE] == word;
  }

  /** The character loop of tokenize; ok is false where it would write past the end of a buffer. */
  method ReadTokens(line: string, cells: array<Cell>) returns (tokenNo: nat, ok: bool)
    requires cells.Length == MAX_NUM_TOKENS
    modifies cells
    ensures !ok ==> !FitsBuffers(line)
    ensures ok ==> TokensFit(line, |line|) && Holds(cells[..], Scan(line, BLANKS).done)
    ensures ok ==> tokenNo == |Scan(line, BLANKS).done|
  {
    var token := new char[MAX_TOKEN_SIZE](i => ' ');
    var tokenIndex := 0;
    tokenNo := 0;
    for i := 0 to |line|
      invariant tokenIndex <= MAX_TOKEN_SIZE && tokenNo <= MAX_NUM_TOKENS
      invariant TokensFit(line, i)
      invariant token[..tokenIndex] == Scan(line[..i], BLANKS).current
      invariant tokenNo == |Scan(line[..i], BLANKS).done| && Holds(cells[..], Scan(line[..i], BLANKS).done)
    {
      ScanNext(line, i, BLANKS);
      DoneGrows(line, i + 1, BLANKS);
      if tokenIndex >= MAX_TOKEN_SIZE {
        return tokenNo, false;
      }
      var readChar := line[i];
      if readChar == ' ' || readChar == '\n' || readChar == '\t' {
        token[tokenIndex] := '\0';
        if tokenIndex != 0 {
          if tokenNo >= MAX_NUM_TOKENS {
            return tokenNo, false;
          }
          cells[tokenNo] := Text(token[..tokenIndex]);
          tokenNo := tokenNo + 1;
          tokenIndex := 0;
        }
      } else {
        token[tokenIndex] := readChar;
        tokenIndex := tokenIndex + 1;
      }
    }
    assert line[..|line|] == line;
    ok := true;
  }

  /**
   tokenize: the tokens completed by a delimiter; an unfinished last one is dropped. The code does
   not check its buffers: null stands for a write past the end of one, which happens on the lines
   that do not fit and on no others.
   */
  method Tokenize(line: string) returns (cells: array?<Cell>)
    ensures cells != null <==> ShortWords(line) && |EndedWords(line)| < 64
    ensures cells != null ==>
      (fresh(cells) && cells.Length == 64 && Lists(cells[..], Scan(line, {' ', '\n', '\t'}).done)
       && (Lists(cells[..], Tokenized(line, {' ', '\n', '\t'})) <==> line == "" || Blank(line[|line| - 1])))
  {
    FitsExactlyWhen(line);
    cells := new Cell[MAX_NUM_TOKENS](i => Null);
    var tokenNo, ok := ReadTokens(line, cells);
    if !ok || tokenNo >= MAX_NUM_TOKENS {
      return null;
    }
    cells[tokenNo] := Null;
    NothingUnfinished(line, BLANKS);
    OneList(cells[..], Scan(line, BLANKS).done, Tokenized(line, BLANKS));
  }

  /** A null-terminated array is the list of one sequence of tokens only. */
  lemma OneList(cells: seq<Cell>, xs: seq<string>, ys: seq<string>)
    requires Lists(cells, xs)
    ensures Lists(cells, ys) <==> xs == ys
  {
    if Lists(cells, ys) {
      assert |xs| == |ys|;
    }
  }
}
