/** The history ring of the shell: 20 slots, the next index to write and the number in use. */
module History {
  import opened HistoryModel

  datatype Slot = Empty | Line(text: string)

  /** (start + i) % MAX_HISTORY_SIZE */
  function RingIndex(start: nat, i: nat): (k: nat)
    requires start < MAX_HISTORY_SIZE && i < MAX_HISTORY_SIZE
    ensures k == if start + i < MAX_HISTORY_SIZE then start + i else start + i - MAX_HISTORY_SIZE
  {
    (start + i) % MAX_HISTORY_SIZE
  }

  /** Where print_history and save_history start reading. */
  function StartPoint(count: nat, idx: nat): nat {
    if count == MAX_HISTORY_SIZE then idx else 0
  }

  predicate RingShape(slots: seq<Slot>, count: nat, idx: nat) {
    && |slots| == MAX_HISTORY_SIZE && idx < MAX_HISTORY_SIZE && count <= MAX_HISTORY_SIZE
    && (count < MAX_HISTORY_SIZE ==> idx == count)
    && forall i :: 0 <= i < count ==> slots[i].Line? && Entry(slots[i].text)
  }

  function Nth(slots: seq<Slot>, count: nat, idx: nat, i: nat): string
    requires RingShape(slots, count, idx) && i < count
  {
    slots[RingIndex(StartPoint(count, idx), i)].text
  }

  /** The ring read from its start point. */
  function Lines(slots: seq<Slot>, count: nat, idx: nat): (h: seq<string>)
    requires RingShape(slots, count, idx)
    ensures |h| == count
  {
    seq(count, i requires 0 <= i < count => Nth(slots, count, idx, i))
  }

  lemma LinesAreEntries(slots: seq<Slot>, count: nat, idx: nat)
    requires RingShape(slots, count, idx)
    ensures forall i :: 0 <= i < count ==> Entry(Lines(slots, count, idx)[i])
  {
    forall i | 0 <= i < count ensures Entry(Lines(slots, count, idx)[i]) {
      assert slots[RingIndex(StartPoint(count, idx), i)].Line?;
    }
  }

  /** Writing the slot at idx appends the line, and drops the oldest one once the ring is full. */
  lemma RingPush(slots: seq<Slot>, count: nat, idx: nat, line: string)
    requires RingShape(slots, count, idx) && Entry(line)
    ensures var count' := if count < MAX_HISTORY_SIZE then count + 1 else count;
      var slots' := slots[idx := Line(line)];
      && RingShape(slots', count', (idx + 1) % MAX_HISTORY_SIZE)
      && Lines(slots', count', (idx + 1) % MAX_HISTORY_SIZE) == Latest(Lines(slots, count, idx) + [line])
  {
    var count' := if count < MAX_HISTORY_SIZE then count + 1 else count;
    var idx' := (idx + 1) % MAX_HISTORY_SIZE;
    var slots' := slots[idx := Line(line)];
    var h, h' := Lines(slots, count, idx), Lines(slots', count', idx');
    forall i | 0 <= i < count' ensures h'[i] == Latest(h + [line])[i] {
      if count < MAX_HISTORY_SIZE {
        assert h'[i] == slots'[RingIndex(StartPoint(count', idx'), i)].text;
      } else if i < count - 1 {
        assert h'[i] == Nth(slots', count', idx', i) && h[i + 1] == Nth(slots, count, idx, i + 1);
      }
    }
  }

  class HistoryRing {
    const slots: array<Slot>
    var historyCount: nat
    var historyIdx: nat

    ghost predicate Valid()
      reads this, slots
    {
      RingShape(slots[..], historyCount, historyIdx)
    }

    ghost function Contents(): seq<string>
      reads this, slots
      requires Valid()
    {
      Lines(slots[..], historyCount, historyIdx)
    }

    constructor ()
      ensures Valid() && Contents() == [] && fresh(slots)
    {
      slots := new Slot[MAX_HISTORY_SIZE](i => Empty);
      historyCount, historyIdx := 0, 0;
    }

    /** add_to_history, on a C string that fits its buffer. */
    method AddToHistory(line: string)
      requires Valid() && |line| < MAX_INPUT_SIZE
      modifies this, slots
      ensures Valid() && Contents() == Push(old(Contents()), line)
    {
      var temp := Strip(line);
      if temp == "" || temp == "history" {
        return;
      }
      assert Strip(temp) == temp;
      Store(temp);
    }

    /** The part of add_to_history that writes the ring. */
    method Store(temp: string)
      requires Valid() && Entry(temp)
      modifies this, slots
      ensures Valid() && Contents() == Latest(old(Contents()) + [temp])
    {
      RingPush(slots[..], historyCount, historyIdx, temp);
      ghost var after := slots[..][historyIdx := Line(temp)];
      slots[historyIdx] := Line(temp);
      assert slots[..] == after;
      historyIdx := (historyIdx + 1) % MAX_HISTORY_SIZE;
      if historyCount < MAX_HISTORY_SIZE {
        historyCount := historyCount + 1;
      }
    }

    /** print_history: the numbered lines. */
    method PrintHistory() returns (lines: seq<(nat, string)>)
      requires Valid()
      ensures |lines| == |Contents()|
      ensures forall i :: 0 <= i < |lines| ==> lines[i] == (i + 1, Contents()[i])
    {
      lines := [];
      for i := 0 to historyCount
        invariant |lines| == i && forall k :: 0 <= k < i ==> lines[k] == (k + 1, Contents()[k])
      {
        var currentIdx := RingIndex(StartPoint(historyCount, historyIdx), i);
        assert slots[..][currentIdx].Line?;
        lines := lines + [(i + 1, slots[currentIdx].text)];
      }
    }

    /** save_history: the text written to the file. */
    method SaveHistory() returns (text: string)
      requires Valid()
      ensures text == FileText(Contents())
    {
      text := "";
      for i := 0 to historyCount
        invariant text == FileText(Contents()[..i])
      {
        var currentIdx := RingIndex(StartPoint(historyCount, historyIdx), i);
        assert slots[..][currentIdx].Line?;
        FileTextAppend(Contents()[..i], Contents()[i]);
        assert Contents()[..i + 1] == Contents()[..i] + [Contents()[i]];
        text := text + slots[currentIdx].text + "\n";
      }
      assert Contents()[..historyCount] == Contents();
    }

    /** load_history, on the text of the file. */
    method LoadHistory(text: string)
      requires Valid()
      modifies this, slots
      ensures Valid() && Contents() == Load(old(Contents()), text)
    {
      var rest := text;
      while rest != ""
        invariant Valid() && Load(Contents(), rest) == Load(old(Contents()), text)
        decreases |rest|
      {
        var line := Gets(rest, MAX_INPUT_SIZE - 1);
        AddToHistory(line);
        rest := rest[|line|..];
      }
    }
  }

  /** One session saves its history and the next one, starting with an empty ring, loads it. */
  method NextSession(ring: HistoryRing) returns (restored: HistoryRing)
    requires ring.Valid()
    ensures restored.Valid() && restored.Contents() == ring.Contents()
  {
    var text := ring.SaveHistory();
    restored := new HistoryRing();
    restored.LoadHistory(text);
    ghost var saved := ring.Contents();
    LinesAreEntries(ring.slots[..], ring.historyCount, ring.historyIdx);
    LoadSaved([], saved);
    assert [] + saved == saved;
  }
}
