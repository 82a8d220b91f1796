/**
 * MidiMonitorPatch.hpp: keeps the last MESSAGELINES MIDI messages for the
 * screen, oldest first, and a rolling line number `rootId`.
 */
module MidiMonitor {
  import opened Bits
  import opened MidiMessages
  import opened NoteStack
  import opened Audio

  const MESSAGELINES: nat := 7

  /** The line count after `processMidi`'s first statement, which clamps it. */
  function ClampedCount(count: nat): (r: nat)
    ensures r <= MESSAGELINES
    ensures count <= MESSAGELINES ==> r == count
  {
    if count > MESSAGELINES then MESSAGELINES else count
  }

  /** `rootId = (rootId + 1) % 10` on an unsigned int. */
  function NextRootId(rootId: uint32): (r: uint32)
    ensures r < 10
  {
    ((rootId + 1) % TWO_32) % 10
  }

  /** The whole line buffer after storing `msg`, with `count` lines (clamped) before. */
  function Stored(lines: seq<MidiMessage>, count: nat, msg: MidiMessage): (r: seq<MidiMessage>)
    requires |lines| == MESSAGELINES && count <= MESSAGELINES
    ensures |r| == MESSAGELINES
  {
    if count == MESSAGELINES then ShiftDown(lines, 0, MESSAGELINES)[MESSAGELINES - 1 := msg]
    else lines[count := msg]
  }

  /** The lines on screen after one more message: the last MESSAGELINES of them, oldest first. */
  function Record(shown: seq<MidiMessage>, msg: MidiMessage): seq<MidiMessage>
  {
    if |shown| >= MESSAGELINES then shown[|shown| - MESSAGELINES + 1..] + [msg] else shown + [msg]
  }

  /** The lines on screen after a stream of messages. */
  function RecordAll(shown: seq<MidiMessage>, msgs: seq<MidiMessage>): seq<MidiMessage>
  {
    if |msgs| == 0 then shown else Record(RecordAll(shown, msgs[..|msgs| - 1]), msgs[|msgs| - 1])
  }

  /** The newest `k` elements of `s` (all of them when there are fewer). */
  function Newest<T>(s: seq<T>, k: nat): seq<T>
  {
    if |s| <= k then s else s[|s| - k..]
  }

  /**
   * The buffer holds what the screen shows: when it is full the oldest
   * line goes and the others move down one, in order; otherwise the new
   * line is added and the earlier lines stay where they were.
   */
  lemma StoredShowsRecord(lines: seq<MidiMessage>, count: nat, msg: MidiMessage)
    requires |lines| == MESSAGELINES && count <= MESSAGELINES
    ensures Stored(lines, count, msg)[..ClampedCount(count + 1)] == Record(lines[..count], msg)
    ensures count < MESSAGELINES ==> Stored(lines, count, msg)[..count] == lines[..count]
    ensures count == MESSAGELINES ==> Stored(lines, count, msg)[..MESSAGELINES - 1] == lines[1..]
    ensures Stored(lines, count, msg)[ClampedCount(count + 1) - 1] == msg
  {
    if count == MESSAGELINES {
      var r := Stored(lines, count, msg);
      assert r[..MESSAGELINES - 1] == lines[1..];
      assert r[..ClampedCount(count + 1)] == lines[1..] + [msg];
    } else {
      assert lines[count := msg][..count + 1] == lines[..count] + [msg];
    }
  }

  /** Starting from at most MESSAGELINES lines, the screen shows the newest MESSAGELINES messages. */
  lemma {:induction false} RecordAllKeepsNewest(shown: seq<MidiMessage>, msgs: seq<MidiMessage>)
    requires |shown| <= MESSAGELINES
    ensures RecordAll(shown, msgs) == Newest(shown + msgs, MESSAGELINES)
  {
    if |msgs| > 0 {
      var init := msgs[..|msgs| - 1];
      var last := msgs[|msgs| - 1];
      RecordAllKeepsNewest(shown, init);
      var all := shown + init;
      assert shown + msgs == all + [last];
      if |all| >= MESSAGELINES {
        assert Newest(all, MESSAGELINES)[1..] + [last] == (all + [last])[|all| + 1 - MESSAGELINES..];
      }
    }
  }

  /** From 0, the line number of the `k`-th message is k mod 10. */
  lemma {:induction false} RootIdCycles(rootId: uint32, k: nat)
    requires rootId < 10
    ensures RootIdAfter(rootId, k) == (rootId + k) % 10
  {
    if k > 0 {
      RootIdCycles(rootId, k - 1);
      NextRootIdOfDigit(rootId + k - 1);
    }
  }

  lemma NextRootIdOfDigit(n: nat)
    ensures NextRootId(n % 10) == (n + 1) % 10
  {
    var m := n % 10;
    assert (m + 1) % TWO_32 == m + 1;
    DecimalStep(n);
  }

  lemma DecimalStep(n: nat)
    ensures (n % 10 + 1) % 10 == (n + 1) % 10
  {
    var q, m := n / 10, n % 10;
    assert n == 10 * q + m;
    if m == 9 {
      assert n + 1 == 10 * (q + 1);
    } else {
      assert n + 1 == 10 * q + (m + 1);
    }
  }

  function RootIdAfter(rootId: uint32, k: nat): uint32
  {
    if k == 0 then rootId else NextRootId(RootIdAfter(rootId, k - 1))
  }

  class MidiMonitorPatch {
    const messageLines: array<MidiMessage>
    var messageLineCount: uint32
    var rootId: uint32

    /** The lines on screen, oldest first. */
    function Shown(): seq<MidiMessage>
      requires messageLines.Length == MESSAGELINES
      reads this, messageLines
    {
      messageLines[..ClampedCount(messageLineCount)]
    }

    constructor()
      ensures messageLines.Length == MESSAGELINES && fresh(messageLines)
      ensures messageLineCount == 0 && rootId == 0
    {
      messageLines := new MidiMessage[MESSAGELINES](_ => Empty());
      messageLineCount := 0;
      rootId := 0;
    }

    /** `processMidi`: clamp the count, store the message as the newest line, step `rootId`. */
    method ProcessMidi(msg: MidiMessage)
      requires messageLines.Length == MESSAGELINES
      modifies this, messageLines
      ensures messageLineCount == ClampedCount(ClampedCount(old(messageLineCount)) + 1)
      ensures messageLines[..] == Stored(old(messageLines[..]), ClampedCount(old(messageLineCount)), msg)
      ensures Shown() == Record(old(Shown()), msg)
      ensures rootId == NextRootId(old(rootId))
    {
      ghost var lines := messageLines[..];
      if messageLineCount > MESSAGELINES {
        messageLineCount := MESSAGELINES;
      }
      ghost var count: nat := messageLineCount;
      if messageLineCount == MESSAGELINES {
        ShiftSlots(messageLines, 0, MESSAGELINES);
      } else {
        messageLineCount := messageLineCount + 1;
      }
      messageLines[messageLineCount - 1] := msg;
      rootId := NextRootId(rootId);
      StoredShowsRecord(lines, count, msg);
    }

    /** `processAudio`: silence on both channels. */
    method ProcessAudio(left: array<real>, right: array<real>)
      requires left != right
      modifies left, right
      ensures Silenced(left[..], old(left[..]), BlockSize(left, right))
      ensures Silenced(right[..], old(right[..]), BlockSize(left, right))
    {
      var size := BlockSize(left, right);
      Silence(left, size);
      Silence(right, size);
    }
  }
}
