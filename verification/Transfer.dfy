/**
 * The file transfer loops of prj2 (user_program/master.c:61-92 and slave.c:53-92). Between them is
 * a reliable ordered byte stream, which may hand the bytes to the receiver in other pieces than
 * those that were sent.
 */
module Transfer {

  const PAGE_SIZE := 4096

  type Byte = b: int | 0 <= b < 256

  type Bytes = seq<Byte>

  /** The byte '0' that slave.c writes to extend its file. */
  const ZERO_DIGIT: Byte := 48

  /** read()/write(), or mmap. */
  datatype Mode = Copied | Mapped

  function Concat(chunks: seq<Bytes>): Bytes {
    if chunks == [] then [] else Concat(chunks[..|chunks| - 1]) + chunks[|chunks| - 1]
  }

  lemma {:induction false} ConcatSnoc(chunks: seq<Bytes>, c: Bytes)
    ensures Concat(chunks + [c]) == Concat(chunks) + c
  {
    assert (chunks + [c])[..|chunks|] == chunks;
  }

  /** What the receiving system call may return: up to a page, and nothing only at the end of the stream. */
  ghost predicate Receivable(chunks: seq<Bytes>) {
    forall i :: 0 <= i < |chunks| ==> 1 <= |chunks[i]| <= PAGE_SIZE
  }

  ghost predicate Full(chunks: seq<Bytes>) {
    forall i :: 0 <= i < |chunks| ==> |chunks[i]| == PAGE_SIZE
  }

  ghost predicate FullButLast(chunks: seq<Bytes>) {
    forall i :: 0 <= i < |chunks| - 1 ==> |chunks[i]| == PAGE_SIZE
  }

  /** The file, cut into pages of which only the last may be short. */
  ghost predicate Splits(chunks: seq<Bytes>, file: Bytes) {
    Concat(chunks) == file && Receivable(chunks) && FullButLast(chunks)
  }

  lemma {:induction false} FullLength(chunks: seq<Bytes>)
    requires Full(chunks)
    ensures |Concat(chunks)| == |chunks| * PAGE_SIZE
  {
    if chunks != [] {
      FullLength(chunks[..|chunks| - 1]);
    }
  }

  /** There is only one way of cutting a file like that. */
  lemma {:induction false} SplitsOneWay(a: seq<Bytes>, b: seq<Bytes>, file: Bytes)
    requires Splits(a, file) && Splits(b, file)
    ensures a == b
    decreases |a|
  {
    if a != [] && b != [] {
      var m, n := |a| - 1, |b| - 1;
      FullLength(a[..m]);
      FullLength(b[..n]);
      assert m == n;
      assert Concat(a[..m]) == file[..m * PAGE_SIZE] == Concat(b[..n]);
      assert a[m] == file[m * PAGE_SIZE..] == b[n];
      SplitsOneWay(a[..m], b[..n], file[..m * PAGE_SIZE]);
      assert a == a[..m] + [a[m]] && b == b[..n] + [b[n]];
    }
  }

  /** mmap of a file: the length must be positive and the offset a multiple of the page size. */
  predicate CanMap(length: nat, offset: nat) { length > 0 && offset % PAGE_SIZE == 0 }

  // ---------- The sender ----------

  /** What goes out: pieces of 4096 bytes, and at the end a last one of 1 to 4096. */
  ghost predicate InPages(sent: seq<Bytes>) {
    && (forall i :: 0 <= i < |sent| ==> 1 <= |sent[i]| <= 4096)
    && (forall i :: 0 <= i < |sent| - 1 ==> |sent[i]| == 4096)
  }

  /** master.c:61-66. The last read returns nothing, and so nothing is written for it. */
  method SendCopied(file: Bytes) returns (sent: seq<Bytes>)
    ensures Splits(sent, file) && InPages(sent)
  {
    var pos: nat, ret: nat := 0, PAGE_SIZE;
    sent := [];
    while ret > 0
      invariant pos <= |file| && Concat(sent) == file[..pos]
      invariant Receivable(sent) && (pos < |file| ==> Full(sent)) && FullButLast(sent)
      invariant ret == 0 ==> pos == |file|
      decreases |file| - pos, ret
    {
      ret := if |file| - pos < PAGE_SIZE then |file| - pos else PAGE_SIZE;
      if ret > 0 {
        ConcatSnoc(sent, file[pos..pos + ret]);
        assert file[..pos] + file[pos..pos + ret] == file[..pos + ret];
        sent := sent + [file[pos..pos + ret]];
        pos := pos + ret;
      }
    }
    assert file[..pos] == file;
  }

  /** master.c:68-91. An empty file cannot be mapped, so it is not sent at all. */
  method SendMapped(file: Bytes) returns (sent: seq<Bytes>, failed: bool)
    ensures failed <==> file == []
    ensures Splits(sent, file) && InPages(sent)
  {
    var remain: nat, offset: nat := |file|, 0;
    sent, failed := [], false;
    var again := true;
    while again
      invariant offset + remain == |file| && Concat(sent) == file[..offset]
      invariant Receivable(sent) && FullButLast(sent)
      invariant again ==> !failed && Full(sent) && offset == |sent| * PAGE_SIZE && (remain == 0 ==> file == [] && sent == [])
      invariant !again ==> remain == 0 && (failed <==> file == [])
      decreases remain, again
    {
      var size := if remain < PAGE_SIZE then remain else PAGE_SIZE;
      if !CanMap(size, offset) {
        failed, again := true, false;
      } else {
        ConcatSnoc(sent, file[offset..offset + size]);
        assert file[..offset] + file[offset..offset + size] == file[..offset + size];
        sent := sent + [file[offset..offset + size]];
        offset := offset + size;
        remain := remain - size;
        again := remain > 0;
      }
    }
    assert file[..offset] == file;
  }

  // ---------- The receiver ----------

  /** The receiver's file and its count of the bytes in it; `stopped` when a mapping has failed. */
  datatype Receiver = Receiver(file: Bytes, offset: nat, stopped: bool)

  /** What lseek and write leave behind when the file is extended by n bytes: a hole and a '0'. */
  function Extension(n: nat): (e: Bytes)
    requires n > 0
    ensures |e| == n && e[n - 1] == 48 && forall i :: 0 <= i < n - 1 ==> e[i] == 0
  {
    seq(n - 1, _ => 0) + [ZERO_DIGIT]
  }

  /** The part of a file from `offset` on is overwritten. */
  function Overwrite(file: Bytes, offset: nat, chunk: Bytes): Bytes
    requires offset + |chunk| <= |file|
  {
    file[..offset] + chunk + file[offset + |chunk|..]
  }

  /**
   * One receipt. Copying appends the piece (slave.c:56-58). With mmap (slave.c:70-90) the file is
   * extended, and then the new part is mapped and overwritten; the mapping fails, and the loop ends,
   * when the offset is not a multiple of the page size.
   */
  function Take(mode: Mode, r: Receiver, chunk: Bytes): (r': Receiver)
    requires chunk != [] && r.offset <= |r.file|
    ensures |r'.file| == |r.file| + |chunk|
  {
    match mode
    case Copied => r.(file := r.file + chunk, offset := r.offset + |chunk|)
    case Mapped =>
      var extended := r.file + Extension(|chunk|);
      if CanMap(|chunk|, r.offset) then
        r.(file := Overwrite(extended, r.offset, chunk), offset := r.offset + |chunk|)
      else r.(file := extended, stopped := true)
  }

  /** The receiver after these pieces; once it has stopped it takes no more. */
  function Received(mode: Mode, chunks: seq<Bytes>): (r: Receiver)
    requires forall i :: 0 <= i < |chunks| ==> chunks[i] != []
    ensures r.offset <= |r.file|
  {
    if chunks == [] then Receiver([], 0, false)
    else
      var n := |chunks| - 1;
      var r := Received(mode, chunks[..n]);
      if r.stopped then r else Take(mode, r, chunks[n])
  }

  lemma {:induction false} ReceivedSnoc(mode: Mode, chunks: seq<Bytes>, c: Bytes)
    requires c != [] && forall i :: 0 <= i < |chunks| ==> chunks[i] != []
    ensures var r := Received(mode, chunks);
            Received(mode, chunks + [c]) == if r.stopped then r else Take(mode, r, c)
  {
    assert (chunks + [c])[..|chunks|] == chunks;
  }

  /** Copying rebuilds the stream, however it was cut. */
  lemma {:induction false} CopiedIsStream(chunks: seq<Bytes>)
    requires Receivable(chunks)
    ensures Received(Copied, chunks) == Receiver(Concat(chunks), |Concat(chunks)|, false)
  {
    if chunks != [] {
      CopiedIsStream(chunks[..|chunks| - 1]);
    }
  }

  /** Mapping a piece at the end of the file appends it. */
  lemma {:induction false} TakeAligned(r: Receiver, chunk: Bytes)
    requires chunk != [] && !r.stopped && r.offset == |r.file| && r.offset % PAGE_SIZE == 0
    ensures Take(Mapped, r, chunk) == Receiver(r.file + chunk, |r.file + chunk|, false)
  {
    assert Overwrite(r.file + Extension(|chunk|), r.offset, chunk) == r.file + chunk;
  }

  lemma {:induction false} AlignedEnd(offset: nat, length: nat)
    requires offset % PAGE_SIZE == 0 && 1 <= length <= PAGE_SIZE
    ensures (offset + length) % PAGE_SIZE == 0 <==> length == PAGE_SIZE
  {
  }

  lemma {:induction false} FullIsStream(chunks: seq<Bytes>)
    requires Receivable(chunks) && Full(chunks)
    ensures Received(Mapped, chunks) == Receiver(Concat(chunks), |Concat(chunks)|, false)
    ensures |Concat(chunks)| % PAGE_SIZE == 0
  {
    FullLength(chunks);
    if chunks != [] {
      var n := |chunks| - 1;
      FullIsStream(chunks[..n]);
      TakeAligned(Received(Mapped, chunks[..n]), chunks[n]);
    }
  }

  /**
   * Mapping rebuilds the stream, with the offset at the end of the file and every mapping aligned,
   * as long as all pieces but the last are full pages.
   */
  lemma {:induction false} MappedIsStream(chunks: seq<Bytes>)
    requires Receivable(chunks) && FullButLast(chunks)
    ensures Received(Mapped, chunks) == Receiver(Concat(chunks), |Concat(chunks)|, false)
    ensures |Concat(chunks)| % PAGE_SIZE == 0 <==> Full(chunks)
  {
    if chunks != [] {
      var n := |chunks| - 1;
      assert Full(chunks[..n]);
      FullIsStream(chunks[..n]);
      TakeAligned(Received(Mapped, chunks[..n]), chunks[n]);
      AlignedEnd(|Concat(chunks[..n])|, |chunks[n]|);
    }
  }

  /** Otherwise it stops behind the first short piece, with the file extended for the next one. */
  lemma {:induction false} MappedStops(chunks: seq<Bytes>, n: nat)
    requires Receivable(chunks) && n < |chunks| && FullButLast(chunks[..n]) && !FullButLast(chunks[..n + 1])
    ensures Received(Mapped, chunks) ==
            Receiver(Concat(chunks[..n]) + Extension(|chunks[n]|), |Concat(chunks[..n])|, true)
    decreases |chunks|
  {
    var m := |chunks| - 1;
    if n == m {
      MappedIsStream(chunks[..n]);
      assert chunks[..n + 1] == chunks;
      assert !Full(chunks[..n]);
    } else {
      var init := chunks[..m];
      assert init[..n] == chunks[..n] && init[..n + 1] == chunks[..n + 1];
      MappedStops(init, n);
    }
  }

  /**
   * The pieces from which mapping rebuilds the stream: all but the last are full pages, or only the
   * last cannot be mapped and it looks like the extension written for it.
   */
  ghost predicate Rebuildable(chunks: seq<Bytes>) {
    FullButLast(chunks)
    || (var n := |chunks| - 1;
        FullButLast(chunks[..n]) && chunks[n] != [] && chunks[n] == Extension(|chunks[n]|))
  }

  lemma {:induction false} ConcatLength(chunks: seq<Bytes>, i: nat)
    requires Receivable(chunks) && i <= |chunks|
    ensures |Concat(chunks)| >= |Concat(chunks[..i])| + (|chunks| - i)
    decreases |chunks|
  {
    if i < |chunks| {
      var init := chunks[..|chunks| - 1];
      ConcatLength(init, i);
      assert chunks[..i] == init[..i];
    } else {
      assert chunks[..i] == chunks;
    }
  }

  /** Where the first piece is that cannot be mapped. */
  lemma {:induction false} FirstUnmapped(chunks: seq<Bytes>) returns (n: nat)
    requires !FullButLast(chunks)
    ensures 0 < n < |chunks| && FullButLast(chunks[..n]) && !FullButLast(chunks[..n + 1])
    ensures n == |chunks| - 1 <==> FullButLast(chunks[..|chunks| - 1])
  {
    n := 1;
    assert chunks[..|chunks|] == chunks;
    while FullButLast(chunks[..n + 1])
      invariant 0 < n < |chunks| && FullButLast(chunks[..n])
      decreases |chunks| - n
    {
      n := n + 1;
    }
    var i :| 0 <= i < n && |chunks[i]| != PAGE_SIZE;
    assert n < |chunks| - 1 ==> |chunks[..|chunks| - 1][i]| != PAGE_SIZE;
  }

  /** Exactly when mapping rebuilds the stream. */
  lemma {:induction false} MappedExactly(chunks: seq<Bytes>)
    requires Receivable(chunks)
    ensures Received(Mapped, chunks).file == Concat(chunks) <==> Rebuildable(chunks)
    ensures Received(Mapped, chunks).stopped <==> !FullButLast(chunks)
  {
    if FullButLast(chunks) {
      MappedIsStream(chunks);
    } else {
      var n := FirstUnmapped(chunks);
      MappedStops(chunks, n);
      var a, c, e := Concat(chunks[..n]), chunks[n], Extension(|chunks[n]|);
      assert chunks[..n + 1] == chunks[..n] + [c];
      ConcatSnoc(chunks[..n], c);
      ConcatLength(chunks, n + 1);
      assert (a + c)[|a|..] == c && (a + e)[|a|..] == e;
      assert n == |chunks| - 1 ==> chunks[..n + 1] == chunks;
    }
  }

  /** slave.c:54-60. */
  method ReceiveCopied(chunks: seq<Bytes>) returns (file: Bytes, fileSize: nat)
    requires Receivable(chunks)
    ensures Received(Copied, chunks) == Receiver(file, fileSize, false)
    ensures file == Concat(chunks) && fileSize == |file|
  {
    file, fileSize := [], 0;
    for i := 0 to |chunks|
      invariant Received(Copied, chunks[..i]) == Receiver(file, fileSize, false)
    {
      ReceivedSnoc(Copied, chunks[..i], chunks[i]);
      assert chunks[..i + 1] == chunks[..i] + [chunks[i]];
      file := file + chunks[i];
      fileSize := fileSize + |chunks[i]|;
    }
    assert chunks[..|chunks|] == chunks;
    CopiedIsStream(chunks);
  }

  /** slave.c:62-91. */
  method ReceiveMapped(chunks: seq<Bytes>) returns (file: Bytes, mapped: nat)
    requires Receivable(chunks)
    ensures file == Received(Mapped, chunks).file
    ensures file == Concat(chunks) <==> Rebuildable(chunks)
    ensures mapped == |chunks| <==> FullButLast(chunks)
    ensures mapped <= |chunks| && FullButLast(chunks[..mapped])
    ensures file == Concat(chunks[..mapped]) + if mapped < |chunks| then Extension(|chunks[mapped]|) else []
    ensures mapped < |chunks| ==>
              var d := |Concat(chunks[..mapped])|;
              |file| == d + |chunks[mapped]| && file[|file| - 1] == 48 && forall i :: d <= i < |file| - 1 ==> file[i] == 0
  {
    var offset: nat := 0;
    file, mapped := [], 0;
    while mapped < |chunks|
      invariant mapped <= |chunks| && FullButLast(chunks[..mapped])
      invariant Received(Mapped, chunks[..mapped]) == Receiver(file, offset, false)
    {
      var len := |chunks[mapped]|;
      MappedIsStream(chunks[..mapped]);
      assert chunks[..mapped + 1] == chunks[..mapped] + [chunks[mapped]];
      ReceivedSnoc(Mapped, chunks[..mapped], chunks[mapped]);
      file := file + Extension(len);
      if !CanMap(len, offset) {
        break;
      }
      file := Overwrite(file, offset, chunks[mapped]);
      offset := offset + len;
      mapped := mapped + 1;
    }
    assert chunks[..|chunks|] == chunks;
    MappedExactly(chunks);
    if mapped == |chunks| {
      MappedIsStream(chunks);
    } else {
      MappedStops(chunks, mapped);
    }
  }
}
