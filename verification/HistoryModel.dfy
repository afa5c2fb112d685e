/** The shell's command history as a sequence of lines, and its text in the history file. */
module HistoryModel {

  const MAX_HISTORY_SIZE: nat := 20
  const MAX_INPUT_SIZE: nat := 1024

  /** A line up to its first newline. */
  function Strip(line: string): (r: string)
    ensures '\n' !in r && |r| <= |line|
    ensures '\n' !in line ==> r == line
  {
    if line == [] || line[0] == '\n' then [] else [line[0]] + Strip(line[1..])
  }

  /** Strip stops at the first newline: what it keeps is all of the line before it. */
  lemma {:induction false} StripCuts(line: string)
    ensures Strip(line) <= line && '\n' !in Strip(line) && (Strip(line) == line || line[|Strip(line)|] == '\n')
  {
    if line != [] && line[0] != '\n' { StripCuts(line[1..]); }
  }

  predicate Accepted(line: string) { Strip(line) != "" && Strip(line) != "history" }

  function Latest(h: seq<string>): seq<string> {
    if |h| <= MAX_HISTORY_SIZE then h else h[|h| - MAX_HISTORY_SIZE..]
  }

  /** The history after add_to_history. */
  function Push(h: seq<string>, line: string): seq<string> {
    if Accepted(line) then Latest(h + [Strip(line)]) else h
  }

  function PushAll(h: seq<string>, lines: seq<string>): seq<string> {
    if lines == [] then h else Push(PushAll(h, lines[..|lines| - 1]), lines[|lines| - 1])
  }

  /** The accepted lines among some lines, stripped. */
  function Recorded(lines: seq<string>): seq<string> {
    if lines == [] then []
    else
      var last := lines[|lines| - 1];
      Recorded(lines[..|lines| - 1]) + if Accepted(last) then [Strip(last)] else []
  }

  lemma LatestAppend(a: seq<string>, b: seq<string>)
    ensures Latest(Latest(a) + b) == Latest(a + b)
  {
  }

  /** After any run of adds the history is the last 20 accepted lines, in order. */
  lemma {:induction false} HistoryIsLatest(lines: seq<string>)
    ensures PushAll([], lines) == Latest(Recorded(lines))
  {
    if lines != [] {
      var n := |lines| - 1;
      HistoryIsLatest(lines[..n]);
      if Accepted(lines[n]) {
        LatestAppend(Recorded(lines[..n]), [Strip(lines[n])]);
      } else {
        assert Recorded(lines) == Recorded(lines[..n]);
      }
    }
  }

  /** part is what a line has before its first newline, or the whole line. */
  predicate FirstLine(line: string, part: string) {
    part <= line && '\n' !in part && (part == line || line[|part|] == '\n')
  }

  lemma FirstLineIsStrip(line: string, part: string)
    requires FirstLine(line, part)
    ensures part == Strip(line)
  {
    StripCuts(line);
    var other := Strip(line);
    assert forall k :: 0 <= k < |part| ==> line[k] == part[k];
    assert forall k :: 0 <= k < |other| ==> line[k] == other[k];
  }

  /** add_to_history ignores an empty command and the word history, records any other, and forgets the 21st. */
  lemma PushExactly(h: seq<string>, line: string, part: string)
    requires FirstLine(line, part) && |h| <= 20
    ensures Push(h, line) ==
      if part == "" || part == "history" then h
      else if |h| < 20 then h + [part]
      else h[1..] + [part]
  {
    FirstLineIsStrip(line, part);
  }

  /** After any run of adds every entry is a command: not empty, and not the word history. */
  lemma {:induction false} EntriesAreCommands(lines: seq<string>, i: nat)
    requires i < |PushAll([], lines)|
    ensures |PushAll([], lines)| <= 20
    ensures PushAll([], lines)[i] != "" && PushAll([], lines)[i] != "history" && '\n' !in PushAll([], lines)[i]
  {
    if lines != [] {
      var n := |lines| - 1;
      var h := PushAll([], lines[..n]);
      if h != [] { EntriesAreCommands(lines[..n], 0); }
      StripCuts(lines[n]);
      PushExactly(h, lines[n], Strip(lines[n]));
      var from := if |PushAll([], lines)| == |h| && Accepted(lines[n]) then i + 1 else i;
      if from < |h| { EntriesAreCommands(lines[..n], from); }
    }
  }

  // ---- the history file

  function FileText(h: seq<string>): string {
    if h == [] then "" else h[0] + "\n" + FileText(h[1..])
  }

  lemma {:induction false} FileTextAppend(h: seq<string>, line: string)
    ensures FileText(h + [line]) == FileText(h) + line + "\n"
  {
    if h == [] {
      assert h + [line] == [line];
    } else {
      FileTextAppend(h[1..], line);
      assert (h + [line])[1..] == h[1..] + [line];
      assert FileText(h + [line]) == h[0] + "\n" + (FileText(h[1..]) + line + "\n");
    }
  }

  /** Where entry i starts in the file: every entry before it takes its characters and a newline. */
  function Offset(h: seq<string>, i: nat): nat
    requires i <= |h|
  {
    if i == 0 then 0 else Offset(h, i - 1) + |h[i - 1]| + 1
  }

  /** The saved file is the entries in order, each with a newline behind it, and nothing else. */
  lemma {:induction false} FileTextAt(h: seq<string>, i: nat)
    requires i <= |h|
    ensures FileText(h[..i]) <= FileText(h) && |FileText(h[..i])| == Offset(h, i)
    ensures i < |h| ==> FileText(h[..i + 1]) == FileText(h[..i]) + h[i] + "\n"
    decreases |h| - i, 1
  {
    FileTextLength(h, i);
    if i < |h| {
      FileTextAppend(h[..i], h[i]);
      assert h[..i + 1] == h[..i] + [h[i]];
      FileTextAt(h, i + 1);
    } else {
      assert h[..i] == h;
    }
  }

  lemma {:induction false} FileTextLength(h: seq<string>, i: nat)
    requires i <= |h|
    ensures |FileText(h[..i])| == Offset(h, i)
    decreases i
  {
    if i > 0 {
      FileTextLength(h, i - 1);
      FileTextAppend(h[..i - 1], h[i - 1]);
      assert h[..i] == h[..i - 1] + [h[i - 1]];
    }
  }

  /** What fgets reads next with room for size - 1 characters: through a newline, or as many as fit. */
  function Gets(text: string, room: nat): (r: string)
    requires room > 0
    ensures r <= text && |r| <= room && (text != "" ==> r != "")
  {
    if text == [] then []
    else if text[0] == '\n' || room == 1 then [text[0]]
    else [text[0]] + Gets(text[1..], room - 1)
  }

  /** fgets stops only after a newline, at the end of the text, or with its buffer full. */
  lemma {:induction false} GetsStops(text: string, room: nat)
    requires room > 0 && text != ""
    ensures Gets(text, room) <= text && 0 < |Gets(text, room)| <= room
    ensures '\n' !in Gets(text, room)[..|Gets(text, room)| - 1]
    ensures Gets(text, room) == text || |Gets(text, room)| == room || Gets(text, room)[|Gets(text, room)| - 1] == '\n'
  {
    if text[0] != '\n' && room > 1 && |text| > 1 {
      GetsStops(text[1..], room - 1);
      var rest := Gets(text[1..], room - 1);
      assert Gets(text, room) == [text[0]] + rest;
      assert Gets(text, room)[..|rest|] == [text[0]] + rest[..|rest| - 1];
    }
  }

  /** load_history's loop. */
  function Load(h: seq<string>, text: string): seq<string>
    decreases |text|
  {
    if text == "" then h
    else var line := Gets(text, MAX_INPUT_SIZE - 1); Load(Push(h, line), text[|line|..])
  }

  /** One round of load_history: a line of at most 1023 characters, cut after its newline, is added. */
  lemma LoadExactly(h: seq<string>, text: string) returns (line: string)
    requires text != ""
    ensures line <= text && 0 < |line| <= 1023 && '\n' !in line[..|line| - 1]
    ensures line == text || |line| == 1023 || line[|line| - 1] == '\n'
    ensures Load(h, text) == Load(Push(h, line), text[|line|..])
  {
    line := Gets(text, MAX_INPUT_SIZE - 1);
    GetsStops(text, MAX_INPUT_SIZE - 1);
  }

  /** What the ring can hold: lines that were accepted, out of a buffer of MAX_INPUT_SIZE. */
  predicate Entry(e: string) { Accepted(e) && '\n' !in e && |e| < MAX_INPUT_SIZE }

  lemma {:induction false} GetsLine(e: string, rest: string, room: nat)
    requires '\n' !in e && |e| < room
    ensures Gets(e + "\n" + rest, room) == e + "\n"
  {
    var text := e + "\n" + rest;
    if e != "" {
      assert text[1..] == e[1..] + "\n" + rest;
      GetsLine(e[1..], rest, room - 1);
      assert Gets(text, room) == [e[0]] + (e[1..] + "\n");
    }
  }

  lemma {:induction false} GetsFull(e: string, rest: string)
    requires '\n' !in e && e != ""
    ensures Gets(e + "\n" + rest, |e|) == e
  {
    var text := e + "\n" + rest;
    if |e| > 1 {
      assert text[1..] == e[1..] + "\n" + rest;
      GetsFull(e[1..], rest);
    }
  }

  lemma {:induction false} StripNewline(e: string)
    requires '\n' !in e
    ensures Strip(e + "\n") == e
  {
    if e != "" {
      assert (e + "\n")[1..] == e[1..] + "\n";
      StripNewline(e[1..]);
    }
  }

  /** Loading one saved entry adds it, also when it fills the whole buffer and its newline is read apart. */
  lemma LoadEntry(h: seq<string>, e: string, rest: string)
    requires Entry(e)
    ensures Load(h, e + "\n" + rest) == Load(Latest(h + [e]), rest)
  {
    var text := e + "\n" + rest;
    StripNewline(e);
    if |e| < MAX_INPUT_SIZE - 1 {
      GetsLine(e, rest, MAX_INPUT_SIZE - 1);
      assert text[|e + "\n"|..] == rest;
    } else {
      GetsFull(e, rest);
      assert text[|e|..] == "" + "\n" + rest;
      GetsLine("", rest, MAX_INPUT_SIZE - 1);
      assert Load(h, text) == Load(Latest(h + [e]), "" + "\n" + rest);
      assert ("" + "\n" + rest)[1..] == rest;
      assert Gets("" + "\n" + rest, MAX_INPUT_SIZE - 1) == "\n" && !Accepted("\n");
    }
  }

  lemma LoadFirst(g: seq<string>, h: seq<string>)
    requires h != [] && Entry(h[0])
    ensures Load(g, FileText(h)) == Load(Latest(g + [h[0]]), FileText(h[1..]))
  {
    LoadEntry(g, h[0], FileText(h[1..]));
  }

  lemma LatestCons(g: seq<string>, h: seq<string>)
    requires h != []
    ensures Latest(Latest(g + [h[0]]) + h[1..]) == Latest(g + h)
  {
    LatestAppend(g + [h[0]], h[1..]);
    assert g + [h[0]] + h[1..] == g + h;
  }

  predicate AllEntries(h: seq<string>) { h == [] || (Entry(h[0]) && AllEntries(h[1..])) }

  lemma {:induction false} EntriesAll(h: seq<string>)
    requires forall i :: 0 <= i < |h| ==> Entry(h[i])
    ensures AllEntries(h)
  {
    if h != [] {
      assert Entry(h[0]);
      EntriesAll(h[1..]);
    }
  }

  lemma {:induction false} LoadAll(g: seq<string>, h: seq<string>)
    requires AllEntries(h) && |g| <= MAX_HISTORY_SIZE
    ensures Load(g, FileText(h)) == Latest(g + h)
    decreases |h|
  {
    if h == [] {
      assert g + h == g;
    } else {
      var g' := Latest(g + [h[0]]);
      LoadFirst(g, h);
      LoadAll(g', h[1..]);
      LatestCons(g, h);
    }
  }

  /** Loading a saved history on top of another one appends it, keeping the last 20 lines. */
  lemma LoadSaved(g: seq<string>, h: seq<string>)
    requires forall i :: 0 <= i < |h| ==> Entry(h[i])
    requires |g| <= MAX_HISTORY_SIZE
    ensures Load(g, FileText(h)) == Latest(g + h)
  {
    EntriesAll(h);
    LoadAll(g, h);
  }

  lemma {:induction false} PushAllEntries(lines: seq<string>)
    requires forall i :: 0 <= i < |lines| ==> |lines[i]| < MAX_INPUT_SIZE
    ensures |PushAll([], lines)| <= MAX_HISTORY_SIZE
    ensures forall i :: 0 <= i < |PushAll([], lines)| ==> Entry(PushAll([], lines)[i])
  {
    if lines != [] {
      PushAllEntries(lines[..|lines| - 1]);
      var s := Strip(lines[|lines| - 1]);
      assert Strip(s) == s;
    }
  }

  /** The history of any session, saved and loaded into a new one, is the same history. */
  lemma SaveLoadRestores(lines: seq<string>)
    requires forall i :: 0 <= i < |lines| ==> |lines[i]| < MAX_INPUT_SIZE
    ensures Load([], FileText(PushAll([], lines))) == PushAll([], lines)
  {
    PushAllEntries(lines);
    LoadSaved([], PushAll([], lines));
    assert [] + PushAll([], lines) == PushAll([], lines);
  }
}
