/**
 Segmented file transfer with the user-space daemon: upload answers each request
 with the next segment of the file, download appends each segment received to the
 caller's buffer.
 */
module IpcFileSpec {
  import opened Common

  const MAX_DATA: nat := 61440
  const MAX_FILE: nat := 32 * 1024 * 1024

  /** A transfer.  `registered`: its file ID is still found; `pos` is how far the
      buffer pointer has moved.  A write past the end of the buffer raises `overrun`. */
  datatype Fd = Fd(registered: bool, buf: seq<Byte>, pos: nat, bufSize: nat, fileSize: nat, segIndex: nat, segLen: nat,
                   end: bool, complete: bool, overrun: bool)

  /** A segment: a response of the upload, or a request of the download. */
  datatype Segment = Segment(segIndex: nat, data: seq<Byte>, end: bool)

  function SegmentsOf(fileSize: nat): nat {
    fileSize / MAX_DATA + if fileSize % MAX_DATA != 0 then 1 else 0
  }

  function InitFileData(buf: seq<Byte>, bufSize: nat, fileSize: nat): Fd {
    Fd(true, buf, 0, bufSize, fileSize, 0, if fileSize != 0 then SegmentsOf(fileSize) else 0, false, false, false)
  }

  /** An upload request for a segment: whether the response could be allocated and
      was sent. */
  datatype UploadOp = UploadOp(segIndex: nat, allocOk: bool, sendOk: bool)

  /** The response that a request is given. */
  function NextSegment(fd: Fd): Segment
    requires fd.pos + fd.bufSize <= |fd.buf|
  {
    Segment(fd.segIndex, fd.buf[fd.pos..fd.pos + Min(fd.bufSize, MAX_DATA)], (fd.segIndex + 1) % U32 == fd.segLen)
  }

  /** A response that could not be sent uses up its index. */
  function Respond(fd: Fd, sendOk: bool): (r: (Fd, Option<Segment>))
    requires fd.pos + fd.bufSize <= |fd.buf|
    ensures r.0.pos + r.0.bufSize == fd.pos + fd.bufSize && r.0.buf == fd.buf
  {
    var seg, fd1 := NextSegment(fd), fd.(segIndex := (fd.segIndex + 1) % U32);
    if !sendOk then (fd1, None)
    else (fd1.(bufSize := fd.bufSize - |seg.data|, pos := fd.pos + |seg.data|,
               end := fd.end || seg.end, complete := fd.complete || seg.end), Some(seg))
  }

  /** A request for the wrong segment completes the transfer, and is served all the
      same. */
  function UploadReq(fd: Fd, op: UploadOp): (r: (Fd, Option<Segment>))
    requires fd.pos + fd.bufSize <= |fd.buf|
    ensures r.0.pos + r.0.bufSize == fd.pos + fd.bufSize && r.0.buf == fd.buf
  {
    var fd1 := fd.(complete := fd.complete || op.segIndex != fd.segIndex);
    if !fd.registered then (fd, None)
    else if !op.allocOk then (fd1, None)
    else Respond(fd1, op.sendOk)
  }

  /** The transfer after some requests, and the segments sent. */
  function Upload(fd: Fd, ops: seq<UploadOp>): (r: (Fd, seq<Segment>))
    requires fd.pos + fd.bufSize <= |fd.buf|
    ensures r.0.pos + r.0.bufSize == fd.pos + fd.bufSize && r.0.buf == fd.buf
  {
    if ops == [] then (fd, [])
    else
      var (fd', segs) := Upload(fd, ops[..|ops| - 1]);
      var (fd'', seg) := UploadReq(fd', ops[|ops| - 1]);
      (fd'', segs + if seg.Some? then [seg.value] else [])
  }

  /** A download request, with the size of the whole file. */
  datatype DownloadOp = DownloadOp(fileSize: nat, seg: Segment)

  function Refused(fd: Fd, op: DownloadOp): bool {
    || op.fileSize > fd.bufSize
    || |op.seg.data| > MAX_DATA || (|op.seg.data| + fd.fileSize) % U32 > fd.bufSize
    || op.seg.segIndex != fd.segIndex
  }

  function DownloadReq(fd: Fd, op: DownloadOp): (r: Fd)
    ensures |r.buf| == |fd.buf|
  {
    var n := |op.seg.data|;
    if !fd.registered then fd
    else if Refused(fd, op) then fd.(complete := true)
    else
      fd.(buf := if fd.pos + n <= |fd.buf| then fd.buf[..fd.pos] + op.seg.data + fd.buf[fd.pos + n..] else fd.buf,
          overrun := fd.overrun || fd.pos + n > |fd.buf|,
          segIndex := (fd.segIndex + 1) % U32, pos := fd.pos + n, fileSize := (fd.fileSize + n) % U32,
          end := fd.end || op.seg.end, complete := fd.complete || op.seg.end)
  }

  function Download(fd: Fd, ops: seq<DownloadOp>): (r: Fd)
    ensures |r.buf| == |fd.buf|
  {
    if ops == [] then fd else DownloadReq(Download(fd, ops[..|ops| - 1]), ops[|ops| - 1])
  }
}

module IpcFileDriver {
  import opened Common
  import opened IpcFileSpec

  class FileData {
    const buf: array<Byte>
    var registered: bool
    var pos: nat
    var bufSize: nat
    var fileSize: nat
    var segIndex: nat
    var segLen: nat
    var end: bool
    var complete: bool
    var overrun: bool

    function Abs(): Fd
      reads this, buf
    {
      Fd(registered, buf[..], pos, bufSize, fileSize, segIndex, segLen, end, complete, overrun)
    }

    constructor (buf: array<Byte>, bufSize: nat, fileSize: nat)
      ensures this.buf == buf && Abs() == InitFileData(buf[..], bufSize, fileSize)
    {
      this.buf := buf;
      registered := true;
      pos, this.bufSize, this.fileSize := 0, bufSize, fileSize;
      segIndex, end, complete, overrun := 0, false, false, false;
      if fileSize != 0 {
        segLen := fileSize / MAX_DATA + if fileSize % MAX_DATA != 0 then 1 else 0;
      } else {
        segLen := 0;
      }
    }

    method UploadRequest(op: UploadOp) returns (sent: Option<Segment>)
      requires pos + bufSize <= buf.Length
      modifies this
      ensures (Abs(), sent) == UploadReq(old(Abs()), op)
    {
      hide Respond;
      if !registered { return None; }
      if op.segIndex != segIndex { complete := true; }
      if !op.allocOk { return None; }
      sent := SendResponse(op.sendOk);
    }

    method SendResponse(sendOk: bool) returns (sent: Option<Segment>)
      requires pos + bufSize <= buf.Length
      modifies this
      ensures (Abs(), sent) == Respond(old(Abs()), sendOk)
    {
      var index := segIndex;
      segIndex := (segIndex + 1) % U32;
      var len := if bufSize > MAX_DATA then MAX_DATA else bufSize;
      var resp := Segment(index, buf[pos..pos + len], segIndex == segLen);
      if !sendOk { return None; }
      bufSize := bufSize - len;
      pos := pos + len;
      if resp.end {
        end := true;
        complete := true;
      }
      return Some(resp);
    }

    method DownloadRequest(op: DownloadOp)
      modifies this, buf
      ensures Abs() == DownloadReq(old(Abs()), op)
    {
      var n := |op.seg.data|;
      if !registered { return; }
      if op.fileSize > bufSize {
        complete := true;
        return;
      }
      if n > MAX_DATA || (n + fileSize) % U32 > bufSize {
        complete := true;
        return;
      }
      if op.seg.segIndex != segIndex {
        complete := true;
        return;
      }
      if pos + n <= buf.Length {
        Store(op.seg.data);
      } else {
        overrun := true;
      }
      segIndex := (segIndex + 1) % U32;
      pos := pos + n;
      fileSize := (fileSize + n) % U32;
      if op.seg.end {
        end := true;
        complete := true;
      }
    }

    method Store(data: seq<Byte>)
      requires pos + |data| <= buf.Length
      modifies buf
      ensures buf[..] == old(buf[..pos]) + data + old(buf[pos + |data|..])
    {
      Copy(buf, pos, data);
      assert buf[..] == buf[..pos] + buf[pos..pos + |data|] + buf[pos + |data|..];
    }

    /** cnss_plat_ipc_deinit_file_data: 0 only if the end was reached. */
    method Deinit() returns (ret: int)
      modifies this`registered
      ensures !registered && ret == if end then 0 else -EINVAL
    {
      registered := false;
      ret := if end then 0 else -EINVAL;
    }
  }

  /** The upload call: `ops` are the requests served before the caller stops
      waiting, `late` those that come after; `fdOk` tells whether the transfer could
      be set up.  The first result is 0 only if the last segment was sent. */
  method FileUpload(connected: bool, file: array<Byte>, fdOk: bool, indOk: bool,
                    ops: seq<UploadOp>, late: seq<UploadOp>)
    returns (ret: int, sent: seq<Segment>)
    requires file.Length < U32
    ensures var size := file.Length;
            if !connected || size == 0 || size > MAX_FILE || !fdOk || !indOk then ret == -EINVAL && sent == []
            else
              var (fd, segs) := Upload(InitFileData(file[..], size, size), ops);
              sent == segs && ret == if fd.end then 0 else -EINVAL
  {
    sent := [];
    if !connected { return -EINVAL, sent; }
    if file.Length == 0 || file.Length > MAX_FILE { return -EINVAL, sent; }
    if !fdOk { return -EINVAL, sent; }
    var fd := new FileData(file, file.Length, file.Length);
    ghost var start := fd.Abs();
    if indOk {
      var i := 0;
      while i < |ops|
        invariant i <= |ops| && fresh(fd) && fd.buf == file && fd.pos + fd.bufSize == file.Length
        invariant (fd.Abs(), sent) == Upload(start, ops[..i])
      {
        assert ops[..i + 1][..i] == ops[..i];
        var seg := fd.UploadRequest(ops[i]);
        sent := sent + if seg.Some? then [seg.value] else [];
        i := i + 1;
      }
      assert ops[..i] == ops;
    }
    ret := fd.Deinit();
    var i := 0;
    while i < |late|
      invariant i <= |late| && fresh(fd) && fd.pos + fd.bufSize == fd.buf.Length && !fd.registered
    {
      var seg := fd.UploadRequest(late[i]);
      assert seg == None;
      i := i + 1;
    }
  }

  /** The download call: also returns the size received. */
  method FileDownload(connected: bool, buf: array<Byte>, fdOk: bool, indOk: bool, ops: seq<DownloadOp>)
    returns (ret: int, size: nat)
    requires buf.Length < U32
    modifies buf
    ensures if !connected || !fdOk then ret == -EINVAL && size == buf.Length && buf[..] == old(buf[..])
            else
              var fd := Download(InitFileData(old(buf[..]), buf.Length, 0), if indOk then ops else []);
              buf[..] == fd.buf && size == fd.fileSize && ret == if fd.end then 0 else -EINVAL
  {
    if !connected { return -EINVAL, buf.Length; }
    if !fdOk { return -EINVAL, buf.Length; }
    var fd := new FileData(buf, buf.Length, 0);
    ghost var start := fd.Abs();
    if indOk {
      var i := 0;
      while i < |ops|
        invariant i <= |ops| && fresh(fd) && fd.buf == buf && fd.Abs() == Download(start, ops[..i])
      {
        assert ops[..i + 1][..i] == ops[..i];
        fd.DownloadRequest(ops[i]);
        i := i + 1;
      }
      assert ops[..i] == ops;
    }
    size := fd.fileSize;
    ret := fd.Deinit();
  }
}

module IpcFileProofs {
  import opened Common
  import opened IpcFileSpec

  /** The requests a response was made for, and those whose response was not sent. */
  function Served(ops: seq<UploadOp>): nat {
    if ops == [] then 0 else Served(ops[..|ops| - 1]) + if ops[|ops| - 1].allocOk then 1 else 0
  }

  function Lost(ops: seq<UploadOp>): (n: nat)
    ensures n <= Served(ops)
  {
    if ops == [] then 0
    else
      var op := ops[|ops| - 1];
      Lost(ops[..|ops| - 1]) + if op.allocOk && !op.sendOk then 1 else 0
  }

  function Concat(segs: seq<Segment>): seq<Byte> {
    if segs == [] then [] else Concat(segs[..|segs| - 1]) + segs[|segs| - 1].data
  }

  lemma {:induction false} ConcatNext(segs: seq<Segment>, seg: Segment)
    ensures Concat(segs + [seg]) == Concat(segs) + seg.data
  {
    assert (segs + [seg])[..|segs|] == segs;
  }

  function StartUpload(file: seq<Byte>): Fd { InitFileData(file, |file|, |file|) }

  /** Where the pointer is after some segments were sent. */
  function ChunkAt(file: seq<Byte>, i: nat): (at: nat)
    ensures at <= |file|
  {
    Min(|file|, i * MAX_DATA)
  }

  /** The index counts the requests served, in 32 bits, the pointer the responses sent. */
  ghost predicate Counts(file: seq<Byte>, fd: Fd, served: nat, sent: nat) {
    && fd.registered && fd.buf == file && fd.pos + fd.bufSize == |file| && fd.segLen == SegmentsOf(|file|)
    && fd.segIndex == served % U32 && fd.pos == ChunkAt(file, sent)
  }

  lemma {:induction false} NextIndex(served: nat)
    ensures (served % U32 + 1) % U32 == (served + 1) % U32
  {
  }

  lemma {:induction false} CountStep(file: seq<Byte>, fd: Fd, served: nat, sent: nat, op: UploadOp)
    requires Counts(file, fd, served, sent)
    ensures var fd' := UploadReq(fd, op).0;
            Counts(file, fd', if op.allocOk then served + 1 else served,
                   if op.allocOk && op.sendOk then sent + 1 else sent)
  {
    NextIndex(served);
  }

  lemma {:induction false} UploadStep(file: seq<Byte>, fd: Fd, segs: seq<Segment>, op: UploadOp)
    requires fd.buf == file && fd.pos + fd.bufSize == |file| && Concat(segs) == file[..fd.pos]
    ensures var (fd', seg) := UploadReq(fd, op);
            Concat(segs + if seg.Some? then [seg.value] else []) == file[..fd'.pos]
  {
    var (fd', seg) := UploadReq(fd, op);
    if seg.Some? {
      ConcatNext(segs, seg.value);
      assert file[..fd'.pos] == file[..fd.pos] + file[fd.pos..fd'.pos];
    } else {
      assert segs + [] == segs;
    }
  }

  /** What every upload keeps: the pointer and the rest add up to the file, and the
      segments sent are the file's bytes up to the pointer. */
  lemma {:induction false} UploadKeeps(file: seq<Byte>, ops: seq<UploadOp>)
    requires |file| > 0
    ensures var (fd, segs) := Upload(StartUpload(file), ops);
            Counts(file, fd, Served(ops), Served(ops) - Lost(ops)) && Concat(segs) == file[..fd.pos]
  {
    if ops == [] {
    } else {
      var front, op := ops[..|ops| - 1], ops[|ops| - 1];
      UploadKeeps(file, front);
      var (fd, segs) := Upload(StartUpload(file), front);
      CountStep(file, fd, Served(front), Served(front) - Lost(front), op);
      UploadStep(file, fd, segs, op);
    }
  }

  lemma {:induction false} SegmentsCover(size: nat)
    requires size > 0
    ensures (SegmentsOf(size) - 1) * MAX_DATA < size <= SegmentsOf(size) * MAX_DATA && SegmentsOf(size) >= 1
  {
  }

  /** After any requests, the whole file has been sent exactly if as many responses
      were sent as the file has segments. */
  lemma {:induction false} SentAllIff(file: seq<Byte>, ops: seq<UploadOp>)
    requires |file| > 0
    ensures Concat(Upload(StartUpload(file), ops).1) == file <==> Served(ops) - Lost(ops) >= SegmentsOf(|file|)
  {
    UploadKeeps(file, ops);
    SegmentsCover(|file|);
    var (fd, segs) := Upload(StartUpload(file), ops);
    assert file[..|file|] == file;
    assert fd.pos < |file| <==> Served(ops) - Lost(ops) < SegmentsOf(|file|);
  }

  lemma {:induction false} EndStep(file: seq<Byte>, fd: Fd, served: nat, sent: nat, op: UploadOp)
    requires Counts(file, fd, served, sent) && !fd.end && UploadReq(fd, op).0.end
    ensures op.allocOk && op.sendOk && (served + 1) % U32 == SegmentsOf(|file|)
  {
    NextIndex(served);
  }

  lemma {:induction false} EndIndex(file: seq<Byte>, ops: seq<UploadOp>)
    requires |file| > 0 && ops != []
    requires !Upload(StartUpload(file), ops[..|ops| - 1]).0.end && Upload(StartUpload(file), ops).0.end
    ensures Served(ops) % U32 == SegmentsOf(|file|) && ops[|ops| - 1].sendOk
  {
    var front := ops[..|ops| - 1];
    UploadKeeps(file, front);
    EndStep(file, Upload(StartUpload(file), front).0, Served(front), Served(front) - Lost(front), ops[|ops| - 1]);
  }

  /** The end is reported when the index comes to the number of segments; unless it
      has gone round all 32 bits first, the whole file was sent by then exactly if no
      response was lost: a lost one uses up its index, so the end comes too early. */
  lemma {:induction false} EndMeansSentIff(file: seq<Byte>, ops: seq<UploadOp>)
    requires |file| > 0 && ops != []
    requires !Upload(StartUpload(file), ops[..|ops| - 1]).0.end && Upload(StartUpload(file), ops).0.end
    ensures Served(ops) % U32 == SegmentsOf(|file|)
    ensures Served(ops) < U32 ==> (Concat(Upload(StartUpload(file), ops).1) == file <==> Lost(ops) == 0)
  {
    hide *;
    EndIndex(file, ops);
    SentAllIff(file, ops);
  }

  /** Once its caller has given a transfer up, requests do nothing: no upload is served ... */
  lemma {:induction false} LateUploadIgnored(fd: Fd, ops: seq<UploadOp>)
    requires !fd.registered && fd.pos + fd.bufSize <= |fd.buf|
    ensures Upload(fd, ops) == (fd, [])
  {
    if ops == [] {
    } else {
      LateUploadIgnored(fd, ops[..|ops| - 1]);
      var none: seq<Segment> := [];
      assert none + [] == none;
    }
  }

  /** ... and no download written. */
  lemma {:induction false} LateDownloadIgnored(fd: Fd, ops: seq<DownloadOp>)
    requires !fd.registered
    ensures Download(fd, ops) == fd
  {
    if ops == [] {
    } else {
      LateDownloadIgnored(fd, ops[..|ops| - 1]);
    }
  }

  /** The response that reaches the number of segments has been sent. */
  predicate EndSent(n: nat, ops: seq<UploadOp>) {
    ops != [] &&
    (EndSent(n, ops[..|ops| - 1]) ||
     (ops[|ops| - 1].allocOk && ops[|ops| - 1].sendOk && Served(ops) % U32 == n))
  }

  /** Some request asked for another segment than the next. */
  predicate AskedWrong(ops: seq<UploadOp>) {
    ops != [] &&
    (AskedWrong(ops[..|ops| - 1]) || ops[|ops| - 1].segIndex != Served(ops[..|ops| - 1]) % U32)
  }

  lemma {:induction false} WakeStep(file: seq<Byte>, fd: Fd, served: nat, sent: nat, op: UploadOp)
    requires Counts(file, fd, served, sent)
    ensures var fd' := UploadReq(fd, op).0;
            var last := op.allocOk && op.sendOk && (served + 1) % U32 == SegmentsOf(|file|);
            && fd'.end == (fd.end || last)
            && fd'.complete == (fd.complete || last || op.segIndex != served % U32)
  {
    NextIndex(served);
  }

  /** An upload reports its end exactly if the last response has been sent, and wakes
      the caller exactly then or when a wrong segment is asked for. */
  lemma {:induction false} UploadEndsIff(file: seq<Byte>, ops: seq<UploadOp>)
    requires |file| > 0
    ensures var fd := Upload(StartUpload(file), ops).0;
            && (fd.end <==> EndSent(SegmentsOf(|file|), ops))
            && (fd.complete <==> fd.end || AskedWrong(ops))
  {
    if ops == [] {
    } else {
      hide UploadReq, Counts;
      var front, op := ops[..|ops| - 1], ops[|ops| - 1];
      UploadEndsIff(file, front);
      UploadKeeps(file, front);
      WakeStep(file, Upload(StartUpload(file), front).0, Served(front), Served(front) - Lost(front), op);
    }
  }

  // ------------------------------------------------------------ round trip

  /** The i-th segment of a file. */
  function Chunk(file: seq<Byte>, i: nat): Segment {
    Segment(i, file[ChunkAt(file, i)..ChunkAt(file, i + 1)], i + 1 == SegmentsOf(|file|))
  }

  ghost predicate Delivered(file: seq<Byte>, n: nat, segs: seq<Segment>) {
    |segs| == n && forall i: nat :: i < n ==> segs[i] == Chunk(file, i)
  }

  ghost predicate AllServed(ops: seq<UploadOp>) {
    forall i :: 0 <= i < |ops| ==> ops[i].allocOk && ops[i].sendOk
  }

  lemma {:induction false} ServeNext(file: seq<Byte>, fd: Fd, i: nat, op: UploadOp)
    requires 0 < |file| < U32 && i < SegmentsOf(|file|) && op.allocOk && op.sendOk && Counts(file, fd, i, i)
    ensures var (fd', seg) := UploadReq(fd, op);
            seg == Some(Chunk(file, i)) && fd'.end == (fd.end || i + 1 == SegmentsOf(|file|))
  {
    SegmentsCover(|file|);
    assert fd.pos + Min(fd.bufSize, MAX_DATA) == ChunkAt(file, i + 1);
  }

  lemma {:induction false} DeliveredNext(file: seq<Byte>, n: nat, segs: seq<Segment>)
    requires Delivered(file, n, segs)
    ensures Delivered(file, n + 1, segs + [Chunk(file, n)])
  {
  }

  lemma {:induction false} AllCounted(ops: seq<UploadOp>)
    requires AllServed(ops)
    ensures Served(ops) == |ops| && Lost(ops) == 0
  {
    if ops == [] {
    } else {
      AllCounted(ops[..|ops| - 1]);
    }
  }

  /** Requests that are all served, as many as the file has segments, deliver its
      segments in order; only the last is marked as the end. */
  lemma {:induction false} UploadDelivers(file: seq<Byte>, ops: seq<UploadOp>)
    requires 0 < |file| < U32 && AllServed(ops) && |ops| <= SegmentsOf(|file|)
    ensures var (fd, segs) := Upload(StartUpload(file), ops);
            Delivered(file, |ops|, segs) && (fd.end <==> |ops| == SegmentsOf(|file|))
  {
    SegmentsCover(|file|);
    if ops == [] {
    } else {
      var front, op := ops[..|ops| - 1], ops[|ops| - 1];
      assert AllServed(front);
      UploadDelivers(file, front);
      UploadKeeps(file, front);
      AllCounted(front);
      var (fd, segs) := Upload(StartUpload(file), front);
      ServeNext(file, fd, |front|, op);
      DeliveredNext(file, |front|, segs);
    }
  }

  function Feed(size: nat, segs: seq<Segment>): seq<DownloadOp> {
    seq(|segs|, i requires 0 <= i < |segs| => DownloadOp(size, segs[i]))
  }

  /** The first n segments of the file have arrived. */
  ghost predicate Arrived(file: seq<Byte>, buf: seq<Byte>, n: nat, fd: Fd)
    requires |file| <= |buf|
  {
    var m := ChunkAt(file, n);
    && fd.registered && fd.pos == fd.fileSize == m && fd.bufSize == |buf| && fd.segIndex == n && !fd.overrun
    && fd.buf == file[..m] + buf[m..]
    && (fd.end <==> n == SegmentsOf(|file|))
  }

  lemma {:induction false} BufferNext(file: seq<Byte>, buf: seq<Byte>, m: nat, n: nat)
    requires m <= n <= |file| <= |buf|
    ensures var b := file[..m] + buf[m..]; b[..m] + file[m..n] + b[n..] == file[..n] + buf[n..]
  {
    var b := file[..m] + buf[m..];
    assert b[..m] == file[..m] && b[n..] == buf[n..];
    assert file[..n] == file[..m] + file[m..n];
  }

  lemma {:induction false} ChunkFits(file: seq<Byte>, buf: seq<Byte>, n: nat, fd: Fd)
    requires 0 < |file| <= |buf| < U32 && n < SegmentsOf(|file|) && Arrived(file, buf, n, fd)
    ensures !Refused(fd, DownloadOp(|file|, Chunk(file, n)))
    ensures fd.pos == ChunkAt(file, n) && ChunkAt(file, n + 1) == ChunkAt(file, n) + |Chunk(file, n).data| <= |file|
    ensures n + 1 < U32
  {
    SegmentsCover(|file|);
  }

  /** A request that is taken and leaves the 32-bit counters alone. */
  lemma {:induction false} TakenIs(fd: Fd, op: DownloadOp)
    requires fd.registered && !Refused(fd, op) && fd.pos == fd.fileSize
    requires fd.pos + |op.seg.data| <= |fd.buf| < U32 && fd.segIndex + 1 < U32
    ensures var n, fd' := fd.pos + |op.seg.data|, DownloadReq(fd, op);
            && fd' == fd.(buf := fd'.buf, segIndex := fd.segIndex + 1, pos := n, fileSize := n,
                          end := fd.end || op.seg.end, complete := fd.complete || op.seg.end)
            && fd'.buf == fd.buf[..fd.pos] + op.seg.data + fd.buf[n..]
  {
    hide Refused;
  }

  lemma {:induction false} ArriveNext(file: seq<Byte>, buf: seq<Byte>, n: nat, fd: Fd)
    requires 0 < |file| <= |buf| < U32 && n < SegmentsOf(|file|) && Arrived(file, buf, n, fd)
    ensures Arrived(file, buf, n + 1, DownloadReq(fd, DownloadOp(|file|, Chunk(file, n))))
  {
    hide Refused, ChunkAt, SegmentsOf, DownloadReq;
    ChunkFits(file, buf, n, fd);
    TakenIs(fd, DownloadOp(|file|, Chunk(file, n)));
    BufferNext(file, buf, ChunkAt(file, n), ChunkAt(file, n + 1));
  }

  lemma {:induction false} DownloadRebuilds(file: seq<Byte>, buf: seq<Byte>, segs: seq<Segment>)
    requires 0 < |file| <= |buf| < U32 && |segs| <= SegmentsOf(|file|) && Delivered(file, |segs|, segs)
    ensures Arrived(file, buf, |segs|, Download(InitFileData(buf, |buf|, 0), Feed(|file|, segs)))
    decreases |segs|
  {
    SegmentsCover(|file|);
    var ops := Feed(|file|, segs);
    if segs == [] {
      assert ops == [];
    } else {
      var n := |segs| - 1;
      assert ops[..n] == Feed(|file|, segs[..n]);
      DownloadRebuilds(file, buf, segs[..n]);
      ArriveNext(file, buf, n, Download(InitFileData(buf, |buf|, 0), ops[..n]));
    }
  }

  /** What an upload sends, a download into a large enough buffer puts together
      again, leaving the rest of the buffer alone. */
  lemma {:induction false} TransferRoundTrip(file: seq<Byte>, buf: seq<Byte>, ops: seq<UploadOp>)
    requires 0 < |file| <= |buf| < U32 && AllServed(ops) && |ops| == SegmentsOf(|file|)
    ensures var (up, segs) := Upload(StartUpload(file), ops);
            var down := Download(InitFileData(buf, |buf|, 0), Feed(|file|, segs));
            && up.end && down.end && !down.overrun
            && down.fileSize == |file| && down.buf == file + buf[|file|..]
  {
    UploadDelivers(file, ops);
    SegmentsCover(|file|);
    var segs := Upload(StartUpload(file), ops).1;
    DownloadRebuilds(file, buf, segs);
    assert file[..|file|] == file;
  }

  // ---------------------------------------------- download, any requests

  /** What a download has gathered: how many requests it took and their bytes, whether
      one was the last, and whether one was refused. */
  datatype Gathered = Gathered(count: nat, data: seq<Byte>, ended: bool, refused: bool)

  /** A request is taken if its file is not larger than the buffer, its data fits a
      segment and the room left, and it has the next number. */
  predicate Fits(size: nat, g: Gathered, op: DownloadOp) {
    && op.fileSize <= size && |op.seg.data| <= 61440 && |g.data| + |op.seg.data| <= size
    && op.seg.segIndex == g.count % U32
  }

  function Gather(size: nat, ops: seq<DownloadOp>): Gathered {
    if ops == [] then Gathered(0, [], false, false)
    else
      var g, op := Gather(size, ops[..|ops| - 1]), ops[|ops| - 1];
      if Fits(size, g, op) then Gathered(g.count + 1, g.data + op.seg.data, g.ended || op.seg.end, g.refused)
      else g.(refused := true)
  }

  /** The buffer holds the bytes gathered, followed by what it held before; the caller is
      woken when the last segment came or one was refused. */
  ghost predicate Holds(buf: seq<Byte>, fd: Fd, g: Gathered) {
    && fd.registered && fd.pos == fd.fileSize == |g.data| <= fd.bufSize == |buf| && !fd.overrun
    && fd.buf == g.data + buf[fd.pos..] && fd.segIndex == g.count % U32
    && fd.end == g.ended && fd.complete == (g.ended || g.refused)
  }

  lemma {:induction false} PutNext(buf: seq<Byte>, taken: seq<Byte>, data: seq<Byte>)
    requires |taken| + |data| <= |buf|
    ensures var b, n := taken + buf[|taken|..], |taken| + |data|;
            b[..|taken|] + data + b[n..] == taken + data + buf[n..]
  {
    var b, n := taken + buf[|taken|..], |taken| + |data|;
    assert b[..|taken|] == taken && b[n..] == buf[n..];
  }

  lemma {:induction false} RefusedIff(buf: seq<Byte>, fd: Fd, g: Gathered, op: DownloadOp)
    requires |buf| + MAX_DATA < U32 && Holds(buf, fd, g)
    ensures Refused(fd, op) <==> !Fits(|buf|, g, op)
  {
  }

  lemma {:induction false} TakeFitting(buf: seq<Byte>, fd: Fd, g: Gathered, op: DownloadOp)
    requires |buf| < U32 && Holds(buf, fd, g) && Fits(|buf|, g, op) && !Refused(fd, op)
    ensures Holds(buf, DownloadReq(fd, op),
                  Gathered(g.count + 1, g.data + op.seg.data, g.ended || op.seg.end, g.refused))
  {
    hide Refused;
    PutNext(buf, g.data, op.seg.data);
    NextIndex(g.count);
  }

  lemma {:induction false} TakeNext(buf: seq<Byte>, fd: Fd, g: Gathered, op: DownloadOp)
    requires |buf| + MAX_DATA < U32 && Holds(buf, fd, g)
    ensures Holds(buf, DownloadReq(fd, op),
                  if Fits(|buf|, g, op) then
                    Gathered(g.count + 1, g.data + op.seg.data, g.ended || op.seg.end, g.refused)
                  else g.(refused := true))
  {
    RefusedIff(buf, fd, g, op);
    hide Refused, Fits;
    if Fits(|buf|, g, op) { TakeFitting(buf, fd, g, op); }
  }

  /** Whatever is requested, a download takes exactly the requests that fit and come in
      order: the buffer holds their bytes, followed by what it held before, their
      number is the size reported, and never too large. */
  lemma {:induction false} DownloadKeeps(buf: seq<Byte>, ops: seq<DownloadOp>)
    requires |buf| + MAX_DATA < U32
    ensures Holds(buf, Download(InitFileData(buf, |buf|, 0), ops), Gather(|buf|, ops))
  {
    if ops == [] {
    } else {
      var init, front := InitFileData(buf, |buf|, 0), ops[..|ops| - 1];
      DownloadKeeps(buf, front);
      TakeNext(buf, Download(init, front), Gather(|buf|, front), ops[|ops| - 1]);
    }
  }

  lemma {:induction false} FillNext(fd: Fd, k: nat)
    requires fd.registered && fd.pos == fd.fileSize == fd.segIndex == k && k + 1 <= fd.bufSize < U32
    ensures var fd' := DownloadReq(fd, DownloadOp(0, Segment(k, [0], false)));
            fd'.registered && fd'.pos == fd'.fileSize == fd'.segIndex == k + 1 && fd'.bufSize == fd.bufSize
  {
  }

  lemma {:induction false} FillByBytes(buf: seq<Byte>, k: nat) returns (ops: seq<DownloadOp>)
    requires k <= |buf| < U32
    ensures var fd := Download(InitFileData(buf, |buf|, 0), ops);
            fd.registered && fd.pos == fd.fileSize == fd.segIndex == k && fd.bufSize == |buf|
    decreases k
  {
    if k == 0 {
      ops := [];
    } else {
      var front := FillByBytes(buf, k - 1);
      FillNext(Download(InitFileData(buf, |buf|, 0), front), k - 1);
      ops := front + [DownloadOp(0, Segment(k - 1, [0], false))];
      assert ops[..|front|] == front;
    }
  }

  lemma {:induction false} OverrunRun(buf: seq<Byte>) returns (ops: seq<DownloadOp>)
    requires |buf| < U32 <= |buf| + MAX_DATA
    ensures Download(InitFileData(buf, |buf|, 0), ops).overrun
  {
    var front := FillByBytes(buf, |buf|);
    var data: seq<Byte> := seq(U32 - |buf|, _ => 0);
    ops := front + [DownloadOp(0, Segment(|buf|, data, false))];
    assert ops[..|front|] == front;
  }

  /** No run of download requests writes past the buffer, exactly if the buffer is
      smaller than 2^32 - 61440 bytes: beyond that the 32-bit sum of the bound
      check can wrap. */
  lemma {:induction false} NoOverrunIff(size: nat)
    requires size < U32
    ensures size + MAX_DATA < U32 <==>
            forall buf: seq<Byte>, ops: seq<DownloadOp> :: |buf| == size ==>
              !Download(InitFileData(buf, size, 0), ops).overrun
  {
    if size + MAX_DATA < U32 {
      forall buf: seq<Byte>, ops: seq<DownloadOp> | |buf| == size
        ensures !Download(InitFileData(buf, size, 0), ops).overrun
      {
        DownloadKeeps(buf, ops);
        hide Download, Gather;
      }
    } else {
      var buf: seq<Byte> := seq(size, _ => 0);
      var ops := OverrunRun(buf);
      assert Download(InitFileData(buf, size, 0), ops).overrun;
    }
  }
}
