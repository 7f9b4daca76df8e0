/** The daemon's log file, rotated by size at line starts. */
module RollingLog {
  import opened Model

  const NEWLINE: byte := 10

  /** The rotated copies by index, the live file, and the writer's own fields. `rotations`
      counts the rotations since the log was opened. */
  datatype Log = Log(
    maxBytes: nat,
    maxFiles: nat,
    rotated: map<nat, seq<byte>>,
    live: seq<byte>,
    written: nat,
    atLineStart: bool,
    rotations: nat)

  /** At least one rotated copy is kept; a freshly opened writer takes itself to be at a line start. */
  function Open(maxBytes: nat, maxFiles: nat, rotated: map<nat, seq<byte>>, live: seq<byte>): Log {
    Log(maxBytes, if maxFiles < 1 then 1 else maxFiles, rotated, live, |live|, true, 0)
  }

  function Lookup(files: map<nat, seq<byte>>, i: nat): Option<seq<byte>> {
    if i in files then Some(files[i]) else None
  }

  /** What stands at `i` once the copies from `index` up have moved one further, the one at the
      limit dropping out; copies beyond the limit are left alone. */
  function Moved(before: map<nat, seq<byte>>, maxFiles: nat, index: nat, i: nat): Option<seq<byte>> {
    if index < i <= maxFiles then Lookup(before, i - 1)
    else if i == index then None
    else Lookup(before, i)
  }

  function AfterShift(before: map<nat, seq<byte>>, maxFiles: nat, live: seq<byte>, i: nat): Option<seq<byte>> {
    if i == 1 then Some(live) else Moved(before, maxFiles, 1, i)
  }

  /** The copies after a rotation: the live file first, the others one further, the oldest gone. */
  function Shifted(before: map<nat, seq<byte>>, maxFiles: nat, live: seq<byte>): map<nat, seq<byte>> {
    var places := {1} + before.Keys + set i | i in before :: i + 1;
    map i | i in places && AfterShift(before, maxFiles, live, i).Some? :: AfterShift(before, maxFiles, live, i).value
  }

  lemma ShiftedAt(before: map<nat, seq<byte>>, maxFiles: nat, live: seq<byte>, i: nat)
    requires maxFiles >= 1
    ensures Lookup(Shifted(before, maxFiles, live), i) == AfterShift(before, maxFiles, live, i)
  {
    var moved := set j | j in before :: j + 1;
    assert i > 0 && i - 1 in before ==> i in moved;
  }

  function Rotate(l: Log): Log {
    l.(rotated := Shifted(l.rotated, l.maxFiles, l.live), live := [], written := 0, rotations := l.rotations + 1)
  }

  predicate Due(l: Log) { l.written >= l.maxBytes && l.atLineStart }

  /** Appends what the file took of the buffer. */
  function Append(l: Log, taken: seq<byte>): Log {
    l.(live := l.live + taken,
       written := l.written + |taken|,
       atLineStart := if taken == [] then l.atLineStart else taken[|taken| - 1] == NEWLINE)
  }

  /** One write call, of which the file took the first `taken` bytes. */
  function Write(l: Log, taken: seq<byte>): Log { Append(if Due(l) then Rotate(l) else l, taken) }

  // ---------------------------------------------------------------- as the source runs it

  class Writer {
    const maxBytes: nat
    const maxFiles: nat
    var rotated: map<nat, seq<byte>>
    var live: seq<byte>
    var written: nat
    var atLineStart: bool
    ghost var rotations: nat

    ghost function Abs(): Log
      reads this
    {
      Log(maxBytes, maxFiles, rotated, live, written, atLineStart, rotations)
    }

    constructor (maxBytes: nat, maxFiles: nat, rotated: map<nat, seq<byte>>, live: seq<byte>)
      ensures Abs() == Open(maxBytes, maxFiles, rotated, live)
    {
      this.maxBytes := maxBytes;
      this.maxFiles := if maxFiles < 1 then 1 else maxFiles;
      this.rotated := rotated;
      this.live := live;
      written, atLineStart, rotations := |live|, true, 0;
    }

    /** Removes the oldest copy, shifts the others from the top down, and moves the live file aside. */
    method RotateFiles()
      requires maxFiles >= 1
      modifies this
      ensures Abs() == Rotate(old(Abs()))
    {
      ghost var before := rotated;
      ShiftStart(rotated, maxFiles);
      rotated := rotated - {maxFiles};
      var index := maxFiles;
      while index > 1
        invariant 1 <= index <= maxFiles
        invariant HalfShifted(before, maxFiles, index, rotated)
        invariant Abs() == old(Abs()).(rotated := rotated)
      {
        index := index - 1;
        ShiftOne(before, maxFiles, index, rotated);
        if index in rotated {
          rotated := (rotated - {index})[index + 1 := rotated[index]];
        }
      }
      ShiftDone(before, maxFiles, live, rotated);
      rotated := rotated[1 := live];
      live, written := [], 0;
      rotations := rotations + 1;
    }

    method WriteBytes(buffer: seq<byte>, accepts: nat) returns (count: nat)
      requires maxFiles >= 1 && accepts <= |buffer|
      modifies this
      ensures count == accepts
      ensures Abs() == Write(old(Abs()), buffer[..accepts])
    {
      if written >= maxBytes && atLineStart {
        RotateFiles();
      }
      live := live + buffer[..accepts];
      written := written + accepts;
      if accepts > 0 {
        atLineStart := buffer[accepts - 1] == NEWLINE;
      }
      count := accepts;
    }
  }

  ghost predicate HalfShifted(before: map<nat, seq<byte>>, maxFiles: nat, index: nat, now: map<nat, seq<byte>>) {
    forall i: nat :: Lookup(now, i) == Moved(before, maxFiles, index, i)
  }

  function MoveUp(now: map<nat, seq<byte>>, index: nat): map<nat, seq<byte>> {
    if index in now then (now - {index})[index + 1 := now[index]] else now
  }

  lemma ShiftStart(before: map<nat, seq<byte>>, maxFiles: nat)
    ensures HalfShifted(before, maxFiles, maxFiles, before - {maxFiles})
  {
  }

  lemma ShiftOne(before: map<nat, seq<byte>>, maxFiles: nat, index: nat, now: map<nat, seq<byte>>)
    requires 1 <= index < maxFiles && HalfShifted(before, maxFiles, index + 1, now)
    ensures HalfShifted(before, maxFiles, index, MoveUp(now, index))
  {
    assert Lookup(now, index + 1) == None;
    assert Lookup(now, index) == Lookup(before, index);
    forall i: nat
      ensures Lookup(MoveUp(now, index), i) == Moved(before, maxFiles, index, i)
    {
      assert Lookup(now, i) == Moved(before, maxFiles, index + 1, i);
    }
  }

  lemma ShiftDone(before: map<nat, seq<byte>>, maxFiles: nat, live: seq<byte>, now: map<nat, seq<byte>>)
    requires maxFiles >= 1 && HalfShifted(before, maxFiles, 1, now)
    ensures now[1 := live] == Shifted(before, maxFiles, live)
  {
    var done := Shifted(before, maxFiles, live);
    forall i: nat
      ensures Lookup(now[1 := live], i) == Lookup(done, i)
    {
      ShiftedAt(before, maxFiles, live, i);
      assert Lookup(now, i) == Moved(before, maxFiles, 1, i);
    }
    SameLookups(now[1 := live], done);
  }

  lemma SameLookups(a: map<nat, seq<byte>>, b: map<nat, seq<byte>>)
    requires forall i: nat :: Lookup(a, i) == Lookup(b, i)
    ensures a == b
  {
    forall i: nat
      ensures i in a <==> i in b
      ensures i in a ==> a[i] == b[i]
    {
      assert Lookup(a, i) == Lookup(b, i);
    }
  }

  // ---------------------------------------------------------------- runs

  /** The log after the writes, each given as what the file took of it. */
  function Run(l: Log, writes: seq<seq<byte>>): Log {
    if writes == [] then l else Write(Run(l, writes[..|writes| - 1]), writes[|writes| - 1])
  }

  function Joined(writes: seq<seq<byte>>): seq<byte> {
    if writes == [] then [] else Joined(writes[..|writes| - 1]) + writes[|writes| - 1]
  }

  function Content(file: Option<seq<byte>>): seq<byte> { if file.Some? then file.value else [] }

  /** The copies from `k` down to the first: oldest to newest. */
  function History(rotated: map<nat, seq<byte>>, k: nat): seq<byte> {
    if k == 0 then [] else Content(Lookup(rotated, k)) + History(rotated, k - 1)
  }

  /** Everything kept, oldest to newest. */
  function Kept(l: Log): seq<byte> { History(l.rotated, l.maxFiles) + l.live }

  predicate Terminated(s: seq<byte>) { s == [] || s[|s| - 1] == NEWLINE }

  lemma {:induction false} HistoryShifts(before: map<nat, seq<byte>>, maxFiles: nat, live: seq<byte>, k: nat)
    requires 1 <= k <= maxFiles
    ensures History(Shifted(before, maxFiles, live), k) == History(before, k - 1) + live
  {
    ShiftedAt(before, maxFiles, live, k);
    if k > 1 {
      HistoryShifts(before, maxFiles, live, k - 1);
    } else {
      assert History(Shifted(before, maxFiles, live), 0) == [] && History(before, 0) == [];
    }
  }

  /** A rotation loses exactly the copy at the limit. */
  lemma RotateKeeps(l: Log)
    requires l.maxFiles >= 1
    ensures Kept(l) == Content(Lookup(l.rotated, l.maxFiles)) + Kept(Rotate(l))
  {
    HistoryShifts(l.rotated, l.maxFiles, l.live, l.maxFiles);
    assert Kept(Rotate(l)) == History(l.rotated, l.maxFiles - 1) + l.live;
  }

  lemma WriteKeeps(l: Log, taken: seq<byte>) returns (lost: seq<byte>)
    requires l.maxFiles >= 1
    ensures Kept(l) + taken == lost + Kept(Write(l, taken))
  {
    if Due(l) {
      RotateKeeps(l);
      lost := Content(Lookup(l.rotated, l.maxFiles));
    } else {
      lost := [];
    }
  }

  /** The kept files, oldest to newest, are always a suffix of what was there at the start
      followed by everything written: nothing is lost but the oldest, and nothing reordered. */
  lemma {:induction false} KeptIsASuffix(l: Log, writes: seq<seq<byte>>) returns (lost: seq<byte>)
    requires l.maxFiles >= 1
    ensures Kept(l) + Joined(writes) == lost + Kept(Run(l, writes))
    ensures Run(l, writes).maxFiles == l.maxFiles && Run(l, writes).maxBytes == l.maxBytes
  {
    if writes == [] {
      lost := [];
    } else {
      var init, last := writes[..|writes| - 1], writes[|writes| - 1];
      var before := KeptIsASuffix(l, init);
      var more := WriteKeeps(Run(l, init), last);
      lost := before + more;
      assert Joined(writes) == Joined(init) + last;
      Carried(Kept(l), Joined(init), last, before, Kept(Run(l, init)), more, Kept(Run(l, writes)));
    }
  }

  lemma Carried(kept: seq<byte>, joined: seq<byte>, last: seq<byte>, before: seq<byte>, mid: seq<byte>, more: seq<byte>, end: seq<byte>)
    requires kept + joined == before + mid && mid + last == more + end
    ensures kept + (joined + last) == (before + more) + end
  {
    assert kept + (joined + last) == (kept + joined) + last == before + (mid + last) == (before + more) + end;
  }

  // ---------------------------------------------------------------- lines

  /** A rotation that is due now would close a complete line. */
  predicate Tidy(l: Log) { l.written == |l.live| && (Due(l) ==> Terminated(l.live)) }

  /** The copies made since the log was opened stand at the first indices, each ending its last line. */
  ghost predicate WholeLines(l: Log) {
    forall i: nat :: 1 <= i <= l.rotations && i <= l.maxFiles ==>
      Lookup(l.rotated, i).Some? && Terminated(Content(Lookup(l.rotated, i)))
  }

  lemma RotateWholeLines(l: Log)
    requires l.maxFiles >= 1 && WholeLines(l) && Terminated(l.live)
    ensures WholeLines(Rotate(l))
  {
    forall i: nat | 1 <= i <= l.rotations + 1 && i <= l.maxFiles
      ensures Lookup(Rotate(l).rotated, i).Some? && Terminated(Content(Lookup(Rotate(l).rotated, i)))
    {
      ShiftedAt(l.rotated, l.maxFiles, l.live, i);
      if i > 1 {
        assert Lookup(l.rotated, i - 1).Some?;
      }
    }
  }

  lemma WriteTidy(l: Log, taken: seq<byte>)
    requires l.maxFiles >= 1 && Tidy(l) && WholeLines(l)
    ensures Tidy(Write(l, taken)) && WholeLines(Write(l, taken))
  {
    if Due(l) {
      RotateWholeLines(l);
    }
  }

  lemma {:induction false} RunTidy(l: Log, writes: seq<seq<byte>>)
    requires l.maxFiles >= 1 && Tidy(l) && WholeLines(l)
    ensures Tidy(Run(l, writes)) && WholeLines(Run(l, writes)) && Run(l, writes).maxFiles == l.maxFiles
  {
    if writes != [] {
      RunTidy(l, writes[..|writes| - 1]);
      WriteTidy(Run(l, writes[..|writes| - 1]), writes[|writes| - 1]);
    }
  }

  /** No rotated file ever splits a line, in any run, exactly when the file found at opening ends
      its last line or is still below the size limit. A torn file at or over the limit is rotated
      as it is by the very first write. */
  lemma LinesStayWholeExactly(maxBytes: nat, maxFiles: nat, rotated: map<nat, seq<byte>>, live: seq<byte>)
    ensures (forall writes :: WholeLines(Run(Open(maxBytes, maxFiles, rotated, live), writes)))
            <==> Terminated(live) || |live| < maxBytes
  {
    var l := Open(maxBytes, maxFiles, rotated, live);
    if Terminated(live) || |live| < maxBytes {
      forall writes
        ensures WholeLines(Run(l, writes))
      {
        RunTidy(l, writes);
      }
    } else {
      TornFileIsRotated(l);
      assert !WholeLines(Run(l, [[]]));
    }
  }

  lemma TornFileIsRotated(l: Log)
    requires l.maxFiles >= 1 && Due(l) && !Terminated(l.live)
    ensures !WholeLines(Run(l, [[]]))
  {
    var writes: seq<seq<byte>> := [[]];
    assert writes[..0] == [] && Run(l, writes[..0]) == l;
    assert Run(l, writes) == Write(l, []);
    ShiftedAt(l.rotated, l.maxFiles, l.live, 1);
    assert Lookup(Write(l, []).rotated, 1) == Some(l.live);
  }

  // ---------------------------------------------------------------- when it rotates

  /** The writer's own fields are what was written since opening. */
  lemma {:induction false} FieldsFollow(maxBytes: nat, maxFiles: nat, rotated: map<nat, seq<byte>>, live: seq<byte>, writes: seq<seq<byte>>)
    ensures var l := Run(Open(maxBytes, maxFiles, rotated, live), writes);
            && l.written == |l.live| && l.maxBytes == maxBytes && l.maxFiles == (if maxFiles < 1 then 1 else maxFiles)
            && (l.atLineStart <==> Terminated(Joined(writes)))
  {
    if writes != [] {
      FieldsFollow(maxBytes, maxFiles, rotated, live, writes[..|writes| - 1]);
      var init, last := Joined(writes[..|writes| - 1]), writes[|writes| - 1];
      if last == [] {
        assert init + last == init;
      } else {
        assert (init + last)[|init + last| - 1] == last[|last| - 1];
      }
    }
  }

  lemma RunMore(l: Log, writes: seq<seq<byte>>, last: seq<byte>)
    ensures Run(l, writes + [last]) == Write(Run(l, writes), last)
  {
    assert (writes + [last])[..|writes|] == writes;
  }

  /** When a write rotates: exactly if the live file has reached the limit and what was written since
      opening ends a line. Then the live file becomes the first copy, the others move one further up
      to the limit, and the write starts the new file; otherwise it is appended and no copy moves. */
  lemma RotatesExactly(maxBytes: nat, maxFiles: nat, rotated: map<nat, seq<byte>>, live: seq<byte>,
                       writes: seq<seq<byte>>, last: seq<byte>)
    ensures var l := Open(maxBytes, maxFiles, rotated, live);
            var before, after := Run(l, writes), Run(l, writes + [last]);
            if |before.live| >= maxBytes && Terminated(Joined(writes)) then
              && after.live == last
              && Lookup(after.rotated, 1) == Some(before.live)
              && (forall i: nat :: 1 < i <= maxFiles ==> Lookup(after.rotated, i) == Lookup(before.rotated, i - 1))
            else after.live == before.live + last && after.rotated == before.rotated
  {
    var l := Open(maxBytes, maxFiles, rotated, live);
    var before := Run(l, writes);
    FieldsFollow(maxBytes, maxFiles, rotated, live, writes);
    RunMore(l, writes, last);
    if Due(before) {
      forall i: nat | 1 <= i <= before.maxFiles
        ensures Lookup(Rotate(before).rotated, i) == AfterShift(before.rotated, before.maxFiles, before.live, i)
      {
        ShiftedAt(before.rotated, before.maxFiles, before.live, i);
      }
      assert [] + last == last;
    }
  }

  /** Written in whole lines of at most `n` bytes, the live file never outgrows the limit by more
      than one write. */
  lemma {:induction false} LiveStaysSmall(maxBytes: nat, maxFiles: nat, rotated: map<nat, seq<byte>>, live: seq<byte>,
                                          writes: seq<seq<byte>>, n: nat)
    requires |live| <= maxBytes + n && forall w :: w in writes ==> Terminated(w) && |w| <= n
    ensures |Run(Open(maxBytes, maxFiles, rotated, live), writes).live| <= maxBytes + n && Terminated(Joined(writes))
  {
    if writes != [] {
      var init, last := writes[..|writes| - 1], writes[|writes| - 1];
      LiveStaysSmall(maxBytes, maxFiles, rotated, live, init, n);
      RotatesExactly(maxBytes, maxFiles, rotated, live, init, last);
      assert writes == init + [last] && last in writes;
      if last == [] {
        assert Joined(init) + last == Joined(init);
      }
    }
  }

  // ---------------------------------------------------------------- copies

  predicate WithinLimit(l: Log) { forall i :: i in l.rotated ==> 1 <= i <= l.maxFiles }

  lemma RotateWithinLimit(l: Log)
    requires l.maxFiles >= 1 && WithinLimit(l)
    ensures WithinLimit(Rotate(l))
  {
    forall i | i in Rotate(l).rotated
      ensures 1 <= i <= l.maxFiles
    {
      ShiftedAt(l.rotated, l.maxFiles, l.live, i);
    }
  }

  /** No copy appears outside the indices 1 to the limit if none was there at opening. */
  lemma {:induction false} CopiesStayWithinLimit(l: Log, writes: seq<seq<byte>>)
    requires l.maxFiles >= 1 && WithinLimit(l)
    ensures WithinLimit(Run(l, writes)) && Run(l, writes).maxFiles == l.maxFiles
  {
    if writes != [] {
      var before := Run(l, writes[..|writes| - 1]);
      CopiesStayWithinLimit(l, writes[..|writes| - 1]);
      RotateWithinLimit(before);
    }
  }
}
