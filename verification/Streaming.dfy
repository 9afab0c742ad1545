/**
 * Sender and receiver of a file as a step machine, in either mode. Steps of the two interleave in
 * any order, and a receipt takes any number of bytes up to a page off the stream.
 */
module Streaming {
  import opened Transfer

  /**
   * pos: how far the sender is in its file; wire: bytes sent and not yet received; closed: the sender
   * has closed the connection; pieces: what the receiver has been given so far; r: the receiver's
   * file and offset; ended: the receiver has been told that there is no more.
   */
  datatype State = State(pos: nat, wire: Bytes, closed: bool, pieces: seq<Bytes>, r: Receiver, ended: bool)

  const INITIAL := State(0, [], false, [], Receiver([], 0, false), false)

  /** The receiver's loop is over. */
  predicate Over(s: State) { s.ended || s.r.stopped }

  // ---------- Steps ----------

  /** What the sender takes from its file next. */
  function SendSize(file: Bytes, s: State): nat
    requires s.pos <= |file|
  {
    if |file| - s.pos < PAGE_SIZE then |file| - s.pos else PAGE_SIZE
  }

  predicate CanSend(mode: Mode, file: Bytes, s: State) {
    s.pos < |file| && !s.closed && (mode == Mapped ==> CanMap(SendSize(file, s), s.pos))
  }

  function Send(file: Bytes, s: State): State
    requires s.pos <= |file|
  {
    var n := SendSize(file, s);
    s.(pos := s.pos + n, wire := s.wire + file[s.pos..s.pos + n])
  }

  /** At the end of its file the sender closes; with mmap, an empty file has made it give up before. */
  predicate CanClose(mode: Mode, file: Bytes, s: State) {
    s.pos == |file| && !s.closed && (mode == Mapped ==> file != [])
  }

  function Close(s: State): State { s.(closed := true) }

  predicate CanReceive(s: State, k: nat) {
    !Over(s) && 1 <= k <= PAGE_SIZE && k <= |s.wire| && s.r.offset <= |s.r.file|
  }

  function Receive(mode: Mode, s: State, k: nat): State
    requires CanReceive(s, k)
  {
    s.(wire := s.wire[k..], pieces := s.pieces + [s.wire[..k]], r := Take(mode, s.r, s.wire[..k]))
  }

  predicate CanEnd(s: State) { !Over(s) && s.closed && s.wire == [] }

  function End(s: State): State { s.(ended := true) }

  ghost predicate Step(mode: Mode, file: Bytes, s: State, s': State) {
    || (CanSend(mode, file, s) && s' == Send(file, s))
    || (CanClose(mode, file, s) && s' == Close(s))
    || (exists k :: CanReceive(s, k) && s' == Receive(mode, s, k))
    || (CanEnd(s) && s' == End(s))
  }

  ghost predicate IsRun(mode: Mode, file: Bytes, run: seq<State>) {
    run != [] && run[0] == INITIAL && forall i :: 0 < i < |run| ==> Step(mode, file, run[i - 1], run[i])
  }

  // ---------- What every run keeps ----------

  /** Nothing is lost, made up or reordered on the way, and the receiver is what its pieces make it. */
  ghost predicate Inv(mode: Mode, file: Bytes, s: State) {
    && s.pos <= |file| && (s.pos % PAGE_SIZE == 0 || s.pos == |file|)
    && Concat(s.pieces) + s.wire == file[..s.pos]
    && Receivable(s.pieces)
    && s.r == Received(mode, s.pieces) && |s.r.file| == |Concat(s.pieces)|
    && (s.closed ==> s.pos == |file|)
    && (s.ended ==> s.closed && s.wire == [] && !s.r.stopped)
  }

  lemma {:induction false} InitialInv(mode: Mode, file: Bytes)
    ensures Inv(mode, file, INITIAL)
  {
  }

  lemma {:induction false} SendInv(mode: Mode, file: Bytes, s: State)
    requires Inv(mode, file, s) && CanSend(mode, file, s)
    ensures Inv(mode, file, Send(file, s))
  {
    var n := SendSize(file, s);
    assert file[..s.pos] + file[s.pos..s.pos + n] == file[..s.pos + n];
    assert Concat(s.pieces) + (s.wire + file[s.pos..s.pos + n]) == Concat(s.pieces) + s.wire + file[s.pos..s.pos + n];
  }

  lemma {:induction false} ReceiveInv(mode: Mode, file: Bytes, s: State, k: nat)
    requires Inv(mode, file, s) && CanReceive(s, k)
    ensures Inv(mode, file, Receive(mode, s, k))
  {
    var c := s.wire[..k];
    ConcatSnoc(s.pieces, c);
    ReceivedSnoc(mode, s.pieces, c);
    assert s.wire == c + s.wire[k..];
    assert Concat(s.pieces) + (c + s.wire[k..]) == Concat(s.pieces) + c + s.wire[k..];
  }

  lemma {:induction false} StepInv(mode: Mode, file: Bytes, s: State, s': State)
    requires Inv(mode, file, s) && Step(mode, file, s, s')
    ensures Inv(mode, file, s')
  {
    if CanSend(mode, file, s) && s' == Send(file, s) {
      SendInv(mode, file, s);
    } else if k: nat :| CanReceive(s, k) && s' == Receive(mode, s, k) {
      ReceiveInv(mode, file, s, k);
    }
  }

  lemma {:induction false} RunInv(mode: Mode, file: Bytes, run: seq<State>, i: nat)
    requires IsRun(mode, file, run) && i < |run|
    ensures Inv(mode, file, run[i])
  {
    if i == 0 {
      InitialInv(mode, file);
    } else {
      RunInv(mode, file, run, i - 1);
      StepInv(mode, file, run[i - 1], run[i]);
    }
  }

  /**
   * One step of a run moves the sender by nothing, or by 4096 bytes, or by the rest of its file if
   * that is less; and the receiver by nothing, or by a piece of 1 to 4096 bytes.
   */
  lemma {:induction false} StepsMoveByPages(mode: Mode, file: Bytes, run: seq<State>, i: nat)
    requires IsRun(mode, file, run) && i + 1 < |run|
    ensures var s, s' := run[i], run[i + 1];
            && (s'.pos == s.pos || s'.pos == if s.pos + 4096 < |file| then s.pos + 4096 else |file|)
            && (|| s'.pieces == s.pieces
                || (s.pieces < s'.pieces && |s'.pieces| == |s.pieces| + 1 && 1 <= |s'.pieces[|s.pieces|]| <= 4096))
  {
    RunInv(mode, file, run, i);
    var s, s' := run[i], run[i + 1];
    assert Step(mode, file, s, s');
  }

  /** Whatever is on its way, up to 4096 bytes, may be what the receiver is given next. */
  lemma {:induction false} AnyCut(mode: Mode, file: Bytes, run: seq<State>, i: nat, k: nat) returns (s': State)
    requires IsRun(mode, file, run) && i < |run| && !Over(run[i]) && 1 <= k <= 4096 && k <= |run[i].wire|
    ensures Step(mode, file, run[i], s')
    ensures s'.pieces == run[i].pieces + [run[i].wire[..k]] && s'.wire == run[i].wire[k..] && s'.pos == run[i].pos
  {
    RunInv(mode, file, run, i);
    assert CanReceive(run[i], k);
    s' := Receive(mode, run[i], k);
  }

  /** What has been received is the beginning of the file, and all of it at the end. */
  lemma {:induction false} PiecesArePrefix(mode: Mode, file: Bytes, s: State)
    requires Inv(mode, file, s)
    ensures Concat(s.pieces) <= file && (s.ended ==> Concat(s.pieces) == file)
  {
    assert Concat(s.pieces) == file[..s.pos][..|Concat(s.pieces)|];
    if s.ended {
      assert Concat(s.pieces) + s.wire == Concat(s.pieces) && file[..s.pos] == file;
    }
  }

  /**
   * read()/write(): in every state of every run, however the two interleave and however the stream
   * is cut, the receiver's file is a prefix of the sender's; at the end of the stream they are equal.
   */
  lemma {:induction false} CopiedRunsAreSafe(file: Bytes, run: seq<State>, i: nat)
    requires IsRun(Copied, file, run) && i < |run|
    ensures var r := run[i].r;
            r.file <= file && r.offset == |r.file| && !r.stopped && (run[i].ended ==> r.file == file)
  {
    RunInv(Copied, file, run, i);
    CopiedIsStream(run[i].pieces);
    PiecesArePrefix(Copied, file, run[i]);
  }

  /**
   * mmap: the same holds exactly while every receipt but the last is a full page, with the offset at
   * the end of the file and aligned before each mapping.
   */
  lemma {:induction false} MappedRunsAreSafe(file: Bytes, run: seq<State>, i: nat)
    requires IsRun(Mapped, file, run) && i < |run|
    ensures var s := run[i];
            && (s.r.stopped <==> !FullButLast(s.pieces))
            && (FullButLast(s.pieces) ==> s.r.file <= file && s.r.offset == |s.r.file| && (s.ended ==> s.r.file == file))
  {
    RunInv(Mapped, file, run, i);
    MappedExactly(run[i].pieces);
    PiecesArePrefix(Mapped, file, run[i]);
    if FullButLast(run[i].pieces) {
      MappedIsStream(run[i].pieces);
    }
  }

  /** A receipt is mapped, at an aligned offset, exactly if everything before it came in full pages. */
  lemma {:induction false} MappingsAreAligned(file: Bytes, run: seq<State>, i: nat, k: nat)
    requires IsRun(Mapped, file, run) && i < |run| && CanReceive(run[i], k)
    ensures CanMap(k, run[i].r.offset) <==> run[i].r.offset % 4096 == 0
    ensures run[i].r.offset % 4096 == 0 <==> forall j :: 0 <= j < |run[i].pieces| ==> |run[i].pieces[j]| == 4096
    ensures run[i].r.offset % 4096 == 0 <==> FullButLast(Receive(Mapped, run[i], k).pieces)
  {
    RunInv(Mapped, file, run, i);
    var s := run[i];
    var t := Receive(Mapped, s, k);
    MappedExactly(s.pieces);
    MappedIsStream(s.pieces);
    assert forall j :: 0 <= j < |s.pieces| ==> t.pieces[j] == s.pieces[j];
  }

  /** Once the receiver's loop is over its file is the sender's in exactly these cases. */
  lemma {:induction false} MappedOutcome(file: Bytes, run: seq<State>, i: nat)
    requires IsRun(Mapped, file, run) && i < |run| && Over(run[i])
    ensures run[i].r.file == file <==> Concat(run[i].pieces) == file && Rebuildable(run[i].pieces)
  {
    var s := run[i];
    RunInv(Mapped, file, run, i);
    PiecesArePrefix(Mapped, file, s);
    MappedExactly(s.pieces);
  }

  // ---------- Every run comes to an end ----------

  /** Bounds the steps still to come. */
  function StepsLeft(file: Bytes, s: State): int {
    2 * (|file| - s.pos) + |s.wire| + (if s.closed then 0 else 1) + (if s.ended then 0 else 1)
  }

  lemma {:induction false} StepsDown(mode: Mode, file: Bytes, s: State, s': State)
    requires Inv(mode, file, s) && Step(mode, file, s, s')
    ensures StepsLeft(file, s') < StepsLeft(file, s)
  {
  }

  /** No run has more steps than twice the length of the file, and two. */
  lemma {:induction false} RunsAreShort(mode: Mode, file: Bytes, run: seq<State>)
    requires IsRun(mode, file, run)
    ensures |run| <= 2 * |file| + 3
  {
    StepsSpent(mode, file, run, |run| - 1);
    RunInv(mode, file, run, |run| - 1);
  }

  lemma {:induction false} StepsSpent(mode: Mode, file: Bytes, run: seq<State>, i: nat)
    requires IsRun(mode, file, run) && i < |run|
    ensures StepsLeft(file, run[i]) + i <= 2 * |file| + 2
  {
    if i > 0 {
      StepsSpent(mode, file, run, i - 1);
      RunInv(mode, file, run, i - 1);
      StepsDown(mode, file, run[i - 1], run[i]);
    }
  }

  /** Nobody is stuck before the receiver's loop is over, except that an empty file cannot be sent by mmap. */
  lemma {:induction false} SomebodyCanStep(mode: Mode, file: Bytes, run: seq<State>, i: nat)
    requires IsRun(mode, file, run) && i < |run|
    requires mode == Mapped ==> file != []
    ensures Over(run[i]) || exists s' :: Step(mode, file, run[i], s')
  {
    RunInv(mode, file, run, i);
    var s := run[i];
    if Over(s) {
    } else if s.pos < |file| {
      assert CanSend(mode, file, s);
      assert Step(mode, file, s, Send(file, s));
    } else if !s.closed {
      assert Step(mode, file, s, Close(s));
    } else if s.wire != [] {
      assert CanReceive(s, 1);
      assert Step(mode, file, s, Receive(mode, s, 1));
    } else {
      assert Step(mode, file, s, End(s));
    }
  }

  /** The sender goes on whatever the receiver does: a page at a time, and at the end it closes. */
  lemma {:induction false} SenderIsFree(mode: Mode, file: Bytes, run: seq<State>, i: nat) returns (s': State)
    requires IsRun(mode, file, run) && i < |run| && !run[i].closed
    requires mode == Mapped ==> file != []
    ensures Step(mode, file, run[i], s') && s'.pieces == run[i].pieces && s'.r == run[i].r
    ensures if run[i].pos == |file| then s'.closed && s'.wire == run[i].wire
            else run[i].pos < s'.pos <= |file| && s'.wire == run[i].wire + file[run[i].pos..s'.pos]
  {
    RunInv(mode, file, run, i);
    s' := if run[i].pos == |file| then Close(run[i]) else Send(file, run[i]);
  }

  // ---------- mmap can fail ----------

  /** The states of a run that sends two bytes in one piece and receives them one by one. */
  function Sent(x: Byte, y: Byte): State { State(2, [x, y], false, [], Receiver([], 0, false), false) }
  function FirstByte(x: Byte, y: Byte): State { State(2, [y], false, [[x]], Receiver([x], 1, false), false) }
  function SecondByte(x: Byte, y: Byte): State {
    State(2, [], false, [[x], [y]], Receiver([x, ZERO_DIGIT], 1, true), false)
  }

  lemma {:induction false} FirstIsMapped(x: Byte, y: Byte)
    ensures CanReceive(Sent(x, y), 1) && Receive(Mapped, Sent(x, y), 1) == FirstByte(x, y)
  {
    assert [x, y][..1] == [x] && [x, y][1..] == [y];
    TakeAligned(Receiver([], 0, false), [x]);
  }

  lemma {:induction false} SecondIsNot(x: Byte, y: Byte)
    ensures CanReceive(FirstByte(x, y), 1) && Receive(Mapped, FirstByte(x, y), 1) == SecondByte(x, y)
  {
    assert [y][..1] == [y] && [y][1..] == [];
    assert [x] + Extension(1) == [x, ZERO_DIGIT];
  }

  /** The second byte is replaced by a '0': the mapped receiver's file is not the sender's. */
  lemma {:induction false} MappedCanFail(x: Byte, y: Byte) returns (run: seq<State>)
    requires y != ZERO_DIGIT
    ensures IsRun(Mapped, [x, y], run)
    ensures var s := run[|run| - 1];
            Over(s) && Concat(s.pieces) == [x, y] && s.r.file == [x, ZERO_DIGIT] != [x, y]
  {
    run := [INITIAL, Sent(x, y), FirstByte(x, y), SecondByte(x, y)];
    assert [x, y][0..2] == [x, y];
    assert Send([x, y], INITIAL) == Sent(x, y);
    FirstIsMapped(x, y);
    SecondIsNot(x, y);
    ConcatSnoc([[x]], [y]);
    ConcatSnoc([], [x]);
    assert [] + [[x]] == [[x]] && [[x]] + [[y]] == [[x], [y]];
  }
}
