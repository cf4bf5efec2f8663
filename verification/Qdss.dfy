/**
 The QDSS trace path: segments are fetched from the firmware one request at a
 time into one buffer, and the buffer is handed to netlink listeners in messages
 of at most 15 KiB, each tried twice.
 */
module QdssSpec {
  import opened Common

  const GENL_DATA_MAX: nat := 15360
  const QMI_DATA_MAX: nat := 6144

  type Pos = x: nat | x > 0 witness 1

  /** One request to the firmware: no response (the transaction could not be set up,
      the request not sent, or the wait failed), a refusal, or a response. */
  datatype Exchange =
    | Failed(err: Pos)
    | Rejected(result: Pos)
    | Response(totalValid: bool, total: nat, segValid: bool, segId: nat, dataValid: bool, data: seq<Byte>,
               endValid: bool, end: bool)

  datatype Message = Message(total: nat, segId: nat, end: bool, data: seq<Byte>)

  /** What answers the r-th try (0 or 1) of message i. */
  type Answer = (nat, nat) -> int

  function SendTwice(answer: Answer, i: nat): int {
    if answer(i, 0) >= 0 then answer(i, 0) else answer(i, 1)
  }

  /** Sends the buffer from `pos` on as messages i and following: the messages that
      got through and the result. */
  function SendFrom(buf: seq<Byte>, pos: nat, i: nat, ret: int, answer: Answer): (seq<Message>, int)
    requires pos <= |buf|
    decreases |buf| - pos
  {
    if pos == |buf| then ([], ret)
    else
      var len := Min(|buf| - pos, GENL_DATA_MAX);
      var r := SendTwice(answer, i);
      if r < 0 then ([], r)
      else
        var (msgs, r') := SendFrom(buf, pos + len, i + 1, r, answer);
        ([Message(|buf|, i, |buf| - pos <= GENL_DATA_MAX, buf[pos..pos + len])] + msgs, r')
  }

  predicate Acceptable(e: Exchange, total: nat, segId: nat) {
    && e.Response? && e.totalValid && e.total == total && e.segValid && e.segId == segId
    && e.dataValid && |e.data| <= QMI_DATA_MAX
  }

  /** The fetch before exchange k, with `data` received; the end flags are those of
      the last response.  When the exchanges run out the wait fails. */
  function Fetch(total: nat, ex: seq<Exchange>, k: nat, data: seq<Byte>, endValid: bool, end: bool)
    : (r: (int, seq<Byte>))
    requires k <= |ex| && |data| <= total
    ensures |r.1| <= total && r.0 <= 0
    decreases |ex| - k
  {
    if |data| == total || end then
      (if |data| == total && endValid && end then 0 else -1, data)
    else if k == |ex| then (-ETIMEDOUT, data)
    else
      var e := ex[k];
      if e.Failed? then (-(e.err as int), data)
      else if e.Rejected? then (-(e.result as int), data)
      else if Acceptable(e, total, k % U32) && |data| + |e.data| <= total then
        Fetch(total, ex, k + 1, data + e.data, e.endValid, e.end)
      else (-1, data)
  }

  /** `allocReq` covers the two message buffers, `allocData` the trace buffer; a
      failure of the latter is returned as a positive number. */
  function FetchAndSend(total: nat, ex: seq<Exchange>, allocReq: bool, allocData: bool, answer: Answer)
    : (int, seq<Message>)
  {
    if !allocReq then (-ENOMEM, [])
    else if !allocData then (ENOMEM, [])
    else
      var (ret, data) := Fetch(total, ex, 0, [], false, false);
      if ret != 0 then (ret, [])
      else
        var (msgs, r) := SendFrom(data, 0, 0, 0, answer);
        (if r < 0 then -1 else r, msgs)
  }
}

module QdssDriver {
  import opened Common
  import opened QdssSpec

  method GenlSendMsg(buff: seq<Byte>, answer: Answer) returns (ret: int, delivered: seq<Message>)
    ensures (delivered, ret) == SendFrom(buff, 0, 0, 0, answer)
  {
    ret, delivered := 0, [];
    var remaining, pos, segId, end := |buff|, 0, 0, false;
    assert delivered + SendFrom(buff, 0, 0, 0, answer).0 == SendFrom(buff, 0, 0, 0, answer).0;
    while remaining != 0
      invariant 0 <= remaining == |buff| - pos && 0 <= pos && (end ==> remaining == 0)
      invariant var (msgs, r) := SendFrom(buff, pos, segId, ret, answer);
                (delivered + msgs, r) == SendFrom(buff, 0, 0, 0, answer)
    {
      var dataLen;
      if remaining > GENL_DATA_MAX {
        dataLen := GENL_DATA_MAX;
      } else {
        dataLen := remaining;
        end := true;
      }
      var retry := 0;
      while retry < 2
        invariant retry <= 2
        invariant retry == 1 ==> ret == answer(segId, 0) < 0
        invariant retry == 2 ==> ret == answer(segId, 1) < 0 && answer(segId, 0) < 0
      {
        ret := answer(segId, retry);
        if ret >= 0 { break; }
        retry := retry + 1;
      }
      if ret < 0 {
        assert delivered + [] == delivered;
        return;
      }
      var msg := Message(|buff|, segId, end, buff[pos..pos + dataLen]);
      ghost var rest := SendFrom(buff, pos + dataLen, segId + 1, ret, answer).0;
      assert delivered + ([msg] + rest) == (delivered + [msg]) + rest;
      delivered := delivered + [msg];
      remaining := remaining - dataLen;
      pos := pos + dataLen;
      segId := segId + 1;
    }
    assert delivered + [] == delivered;
  }

  method FetchTrace(total: nat, ex: seq<Exchange>, data: array<Byte>) returns (ret: int)
    requires data.Length == total
    modifies data
    ensures var (r, bytes) := Fetch(total, ex, 0, [], false, false);
            ret == r && (r == 0 ==> data[..] == bytes)
  {
    var remaining, pos, k, segId, endValid, end := total, 0, 0, 0, false, false;
    ret := 0;
    while remaining != 0 && !end
      invariant 0 <= remaining == total - pos && 0 <= pos && k <= |ex| && segId == k % U32
      invariant Fetch(total, ex, k, data[..pos], endValid, end) == Fetch(total, ex, 0, [], false, false)
      decreases |ex| - k
    {
      if k == |ex| { return -ETIMEDOUT; }
      match ex[k] {
        case Failed(err) => return -(err as int);
        case Rejected(result) => return -(result as int);
        case Response(totalValid, t, segValid, s, dataValid, bytes, ev, e) =>
          if totalValid && t == total && segValid && s == segId && dataValid && |bytes| <= QMI_DATA_MAX
             && |bytes| <= remaining {
            Copy(data, pos, bytes);
            assert data[..pos + |bytes|] == data[..pos] + data[pos..pos + |bytes|];
          } else {
            return -1;
          }
          remaining := remaining - |bytes|;
          pos := pos + |bytes|;
          segId := (segId + 1) % U32;
          endValid, end := ev, e;
      }
      k := k + 1;
    }
    if remaining != 0 || !endValid || !end { return -1; }
    assert data[..pos] == data[..];
  }

  method QdssDataSendSync(total: nat, ex: seq<Exchange>, allocReq: bool, allocData: bool, answer: Answer)
    returns (ret: int, delivered: seq<Message>)
    ensures (ret, delivered) == FetchAndSend(total, ex, allocReq, allocData, answer)
  {
    delivered := [];
    if !allocReq { return -ENOMEM, delivered; }
    if !allocData { return ENOMEM, delivered; }
    var data := new Byte[total];
    ret := FetchTrace(total, ex, data);
    if ret != 0 { return; }
    ret, delivered := GenlSendMsg(data[..], answer);
    if ret < 0 { ret := -1; }
  }
}

module QdssProofs {
  import opened Common
  import opened QdssSpec

  function Concat(msgs: seq<Message>): seq<Byte> {
    if msgs == [] then [] else msgs[0].data + Concat(msgs[1..])
  }

  /** How many messages a buffer takes. */
  function Messages(size: nat): nat { (size + GENL_DATA_MAX - 1) / GENL_DATA_MAX }

  /** The messages are numbered from i, the last one only is marked as the end, and
      none is longer than allowed. */
  ghost predicate Framed(msgs: seq<Message>, i: nat, total: nat) {
    forall k :: 0 <= k < |msgs| ==>
      && msgs[k].segId == i + k && msgs[k].total == total
      && (msgs[k].end <==> k == |msgs| - 1) && 0 < |msgs[k].data| <= GENL_DATA_MAX
  }

  /** Message k gets an answer at its first or its second try. */
  predicate Answered(answer: Answer, k: nat) {
    answer(k, 0) >= 0 || answer(k, 1) >= 0
  }

  ghost predicate AllAnswered(answer: Answer, i: nat, n: nat) {
    forall k: nat :: i <= k < n ==> Answered(answer, k)
  }

  /** All messages due from a position on, when nothing fails. */
  function Due(buf: seq<Byte>, pos: nat, i: nat): seq<Message>
    requires pos <= |buf|
    decreases |buf| - pos
  {
    if pos == |buf| then []
    else
      var len := Min(|buf| - pos, GENL_DATA_MAX);
      [Message(|buf|, i, |buf| - pos <= GENL_DATA_MAX, buf[pos..pos + len])] + Due(buf, pos + len, i + 1)
  }

  lemma {:induction false} DueIsRight(buf: seq<Byte>, pos: nat, i: nat)
    requires pos <= |buf|
    ensures var msgs := Due(buf, pos, i);
            Framed(msgs, i, |buf|) && Concat(msgs) == buf[pos..] && |msgs| == Messages(|buf| - pos)
    decreases |buf| - pos
  {
    if pos < |buf| {
      var len := Min(|buf| - pos, GENL_DATA_MAX);
      DueIsRight(buf, pos + len, i + 1);
      var msgs, rest := Due(buf, pos, i), Due(buf, pos + len, i + 1);
      assert msgs[1..] == rest;
      assert buf[pos..] == buf[pos..pos + len] + buf[pos + len..];
      MessagesNext(|buf| - pos);
      assert len == |buf| - pos ==> rest == [];
    }
  }

  lemma {:induction false} MessagesNext(size: nat)
    requires size > 0
    ensures Messages(size) == 1 + Messages(size - Min(size, GENL_DATA_MAX))
  {
  }

  /** What gets through is always a part of the messages due, from the first on; all
      of them, with success, exactly if each gets an answer within its two tries. */
  lemma {:induction false} SendIff(buf: seq<Byte>, pos: nat, i: nat, ret: int, answer: Answer)
    requires pos <= |buf| && ret >= 0
    ensures var (msgs, r) := SendFrom(buf, pos, i, ret, answer);
            && msgs <= Due(buf, pos, i)
            && (r >= 0 <==> AllAnswered(answer, i, i + |Due(buf, pos, i)|))
            && (r >= 0 <==> msgs == Due(buf, pos, i))
    decreases |buf| - pos
  {
    if pos < |buf| {
      var len := Min(|buf| - pos, GENL_DATA_MAX);
      var r := SendTwice(answer, i);
      var n := i + |Due(buf, pos, i)|;
      if r >= 0 {
        SendIff(buf, pos + len, i + 1, r, answer);
        assert AllAnswered(answer, i, n) <==> AllAnswered(answer, i + 1, n);
      } else {
        assert !Answered(answer, i) && !AllAnswered(answer, i, n);
      }
    }
  }

  // --------------------------------------------------------------- the fetch

  /** The bytes of the first m responses. */
  function Received(ex: seq<Exchange>, m: nat): seq<Byte>
    requires m <= |ex|
  {
    if m == 0 then [] else Received(ex, m - 1) + if ex[m - 1].Response? then ex[m - 1].data else []
  }

  /** A response with the right size and number whose data is not too long. */
  predicate RightResponse(e: Exchange, total: nat, k: nat) {
    && e.Response? && e.totalValid && e.total == total && e.segValid && e.segId == k % U32
    && e.dataValid && |e.data| <= 6144
  }

  /** Response k is right and fits, and the trace was not complete before it. */
  ghost predicate FitsAt(total: nat, ex: seq<Exchange>, k: nat)
    requires k < |ex|
  {
    && RightResponse(ex[k], total, k) && |Received(ex, k)| < total && |Received(ex, k + 1)| <= total
    && (k > 0 ==> ex[k - 1].Response? && !ex[k - 1].end)
  }

  ghost predicate InOrder(total: nat, ex: seq<Exchange>, m: nat)
    requires m <= |ex|
  {
    forall k: nat :: k < m ==> FitsAt(total, ex, k)
  }

  /** The first m exchanges are the whole trace. */
  ghost predicate Complete(total: nat, ex: seq<Exchange>, m: nat) {
    && 0 < m <= |ex| && InOrder(total, ex, m)
    && |Received(ex, m)| == total && ex[m - 1].Response? && ex[m - 1].endValid && ex[m - 1].end
  }

  lemma {:induction false} CompleteFits(total: nat, ex: seq<Exchange>, m: nat, k: nat)
    requires Complete(total, ex, m) && k < m
    ensures FitsAt(total, ex, k)
  {
  }

  /** From any state of the fetch: it succeeds exactly if some number of exchanges,
      no fewer than those done, is the whole trace. */
  lemma {:induction false} FetchIff(total: nat, ex: seq<Exchange>, k: nat, endValid: bool, end: bool)
    requires k <= |ex| && InOrder(total, ex, k) && |Received(ex, k)| <= total
    requires if k == 0 then !endValid && !end else
               ex[k - 1].Response? && endValid == ex[k - 1].endValid && end == ex[k - 1].end
    ensures Fetch(total, ex, k, Received(ex, k), endValid, end).0 == 0 <==>
            exists m: nat :: k <= m && Complete(total, ex, m)
    ensures forall m: nat :: k <= m && Complete(total, ex, m) ==>
              Fetch(total, ex, k, Received(ex, k), endValid, end).1 == Received(ex, m)
    decreases |ex| - k
  {
    var data := Received(ex, k);
    if |data| == total || end {
      forall m: nat | k <= m && Complete(total, ex, m) ensures m == k {
        if m > k { CompleteFits(total, ex, m, k); }
      }
      if |data| == total && endValid && end { assert Complete(total, ex, k); }
    } else if k == |ex| {
      assert !Complete(total, ex, k);
    } else {
      var e := ex[k];
      assert !Complete(total, ex, k);
      if Acceptable(e, total, k % U32) && |data| + |e.data| <= total {
        assert Received(ex, k + 1) == data + e.data;
        assert FitsAt(total, ex, k);
        assert InOrder(total, ex, k + 1);
        FetchIff(total, ex, k + 1, e.endValid, e.end);
      } else {
        forall m: nat | k < m && Complete(total, ex, m) ensures false {
          CompleteFits(total, ex, m, k);
        }
      }
    }
  }

  /** The end flags of the response before exchange k. */
  function MarkedValid(ex: seq<Exchange>, k: nat): bool
    requires k <= |ex|
  {
    k > 0 && ex[k - 1].Response? && ex[k - 1].endValid
  }

  function Marked(ex: seq<Exchange>, k: nat): bool
    requires k <= |ex|
  {
    k > 0 && ex[k - 1].Response? && ex[k - 1].end
  }

  /** The first k exchanges went well. */
  lemma {:induction false} FetchReaches(total: nat, ex: seq<Exchange>, k: nat)
    requires k <= |ex| && InOrder(total, ex, k)
    ensures |Received(ex, k)| <= total
    ensures Fetch(total, ex, 0, [], false, false)
         == Fetch(total, ex, k, Received(ex, k), MarkedValid(ex, k), Marked(ex, k))
  {
    if k > 0 {
      FetchReaches(total, ex, k - 1);
      assert FitsAt(total, ex, k - 1);
    }
  }

  /** The fetch asks for exchange k. */
  ghost predicate Asks(total: nat, ex: seq<Exchange>, k: nat)
    requires k <= |ex|
  {
    InOrder(total, ex, k) && |Received(ex, k)| < total && !Marked(ex, k)
  }

  /** How a fetch ends: with the error of the exchange that fails or is refused, with -1
      at a response that is wrong or too long, with a time-out when none comes, and
      with -1 if the end mark and the size do not come together. */
  lemma {:induction false} FetchReturns(total: nat, ex: seq<Exchange>, k: nat)
    requires k <= |ex| && InOrder(total, ex, k)
    ensures var ret := Fetch(total, ex, 0, [], false, false).0;
            if !Asks(total, ex, k) then ret == if Complete(total, ex, k) then 0 else -1
            else if k == |ex| then ret == -ETIMEDOUT
            else match ex[k]
                 case Failed(err) => ret == -(err as int)
                 case Rejected(result) => ret == -(result as int)
                 case Response(_, _, _, _, _, data, _, _) =>
                   !(RightResponse(ex[k], total, k) && |Received(ex, k)| + |data| <= total) ==> ret == -1
  {
    FetchReaches(total, ex, k);
    if k > 0 { assert FitsAt(total, ex, k - 1); }
  }

  /** The call succeeds exactly if the firmware's answers make up a whole trace and
      every message gets through; then the messages carry the firmware's segments
      in order, byte for byte. */
  lemma {:induction false} FetchAndSendIff(total: nat, ex: seq<Exchange>, answer: Answer)
    ensures var (ret, msgs) := FetchAndSend(total, ex, true, true, answer);
            && (ret >= 0 <==> (exists m: nat :: Complete(total, ex, m)) && AllAnswered(answer, 0, Messages(total)))
            && (ret >= 0 ==> Framed(msgs, 0, total) && |msgs| == Messages(total) && |Concat(msgs)| == total > 0)
            && (forall m: nat :: ret >= 0 && Complete(total, ex, m) ==> Concat(msgs) == Received(ex, m))
  {
    FetchIff(total, ex, 0, false, false);
    var (ret, data) := Fetch(total, ex, 0, [], false, false);
    if ret == 0 {
      var m: nat :| Complete(total, ex, m);
      assert data == Received(ex, m) && |data| == total;
      SendIff(data, 0, 0, 0, answer);
      DueIsRight(data, 0, 0);
      assert data[0..] == data;
    }
  }

  /** What the call returns otherwise. */
  lemma {:induction false} FetchAndSendReturns(total: nat, ex: seq<Exchange>, allocReq: bool, allocData: bool,
                                               answer: Answer)
    ensures var ret, fetched := FetchAndSend(total, ex, allocReq, allocData, answer).0,
                                Fetch(total, ex, 0, [], false, false).0;
            && (!allocReq ==> ret == -ENOMEM) && (allocReq && !allocData ==> ret == ENOMEM)
            && (allocReq && allocData && fetched != 0 ==> ret == fetched)
            && (allocReq && allocData && fetched == 0 && !AllAnswered(answer, 0, Messages(total)) ==> ret == -1)
  {
    var (ret, data) := Fetch(total, ex, 0, [], false, false);
    if ret == 0 {
      FetchAndSendIff(total, ex, answer);
      FetchIff(total, ex, 0, false, false);
    }
  }

  /** Whatever fails, nothing is sent unless the exchanges make up a whole trace, and
      then what got through is a part of what that trace sends, from the first
      message on. */
  lemma {:induction false} DeliveredIsPrefix(total: nat, ex: seq<Exchange>, allocReq: bool, allocData: bool,
                                             answer: Answer)
    ensures var msgs := FetchAndSend(total, ex, allocReq, allocData, answer).1;
            && (forall m: nat :: Complete(total, ex, m) ==> msgs <= Due(Received(ex, m), 0, 0))
            && ((forall m: nat :: !Complete(total, ex, m)) ==> msgs == [])
  {
    FetchIff(total, ex, 0, false, false);
    var (ret, data) := Fetch(total, ex, 0, [], false, false);
    if ret == 0 { SendIff(data, 0, 0, 0, answer); }
  }
}
