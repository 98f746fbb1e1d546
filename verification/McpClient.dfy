/** The JSON-RPC client of `hard-eval/mcp-harness/mcp-client.js`: requests sent,
    frames arriving in chunks, the process exiting, and the table of pending ids. */
module McpClient {
  import opened Text
  import opened JsonFramer

  /** What a promise was settled with. */
  datatype Settlement = Resolved(id: nat, frame: string) | Rejected(id: nat)

  /** `pending` lists the ids in the order they were entered; `settled` records
      the calls of `resolve` and `reject` in order. */
  datatype State = State(nextId: nat, pending: seq<nat>, buf: string, settled: seq<Settlement>)

  datatype Event = Send(expectReply: bool) | Data(chunk: string) | Exit

  const INITIAL := State(1, [], "", [])

  /** The id a frame carries, if it parses as JSON and has one. */
  type ReplyId = string -> Option<nat>

  // ---------- one event at a time ----------

  function Without(ids: seq<nat>, id: nat): (r: seq<nat>)
    ensures id in ids ==> multiset(r) == multiset(ids) - multiset{id}
    ensures id !in ids ==> r == ids
  {
    match IndexOf(ids, id)
    case None => ids
    case Some(i) =>
      assert ids == ids[..i] + [id] + ids[i + 1..];
      ids[..i] + ids[i + 1..]
  }

  /** A frame resolves the pending id it names, and is dropped otherwise. */
  function Deliver(c: State, frame: string, replyId: ReplyId): State {
    var id := replyId(frame);
    if id.Some? && id.value in c.pending then
      c.(pending := Without(c.pending, id.value), settled := c.settled + [Resolved(id.value, frame)])
    else c
  }

  function DeliverAll(c: State, frames: seq<string>, replyId: ReplyId): State
    decreases |frames|
  {
    if frames == [] then c else DeliverAll(Deliver(c, frames[0], replyId), frames[1..], replyId)
  }

  function RejectAll(ids: seq<nat>): (r: seq<Settlement>)
    ensures |r| == |ids|
  {
    seq(|ids|, i requires 0 <= i < |ids| => Rejected(ids[i]))
  }

  /** Delivers every complete frame of the buffer and keeps the rest. */
  function Drain(c: State, replyId: ReplyId): State
  {
    var (frames, rest) := Frames(c.buf);
    DeliverAll(c, frames, replyId).(buf := rest)
  }

  function Step(c: State, e: Event, replyId: ReplyId): State
  {
    match e
    case Send(expectReply) =>
      c.(nextId := c.nextId + 1, pending := if expectReply then c.pending + [c.nextId] else c.pending)
    case Data(chunk) => Drain(c.(buf := c.buf + chunk), replyId)
    case Exit => c.(pending := [], settled := c.settled + RejectAll(c.pending))
  }

  lemma {:induction false} BufferIsCarried(c: State, frames: seq<string>, replyId: ReplyId, buf: string)
    ensures DeliverAll(c.(buf := buf), frames, replyId) == DeliverAll(c, frames, replyId).(buf := buf)
    decreases |frames|
  {
    if frames != [] {
      BufferIsCarried(Deliver(c, frames[0], replyId), frames[1..], replyId, buf);
    }
  }

  lemma {:induction false} DrainDone(c: State, replyId: ReplyId)
    requires First(c.buf).None?
    ensures Drain(c, replyId) == c
  {
  }

  lemma {:induction false} DrainStep(c: State, replyId: ReplyId, start: nat, n: nat)
    requires First(c.buf) == Some((start, n))
    ensures start + n <= |c.buf|
    ensures Drain(c, replyId) ==
            Drain(Deliver(c, c.buf[start..start + n], replyId).(buf := c.buf[start + n..]), replyId)
  {
    var one, more := c.buf[start..start + n], c.buf[start + n..];
    FirstIsStable();
    CutStep(First, c.buf, one, more, start);
    var d := Deliver(c, one, replyId);
    assert Frames(c.buf).0[1..] == Frames(more).0;
    BufferIsCarried(d, Frames(more).0, replyId, more);
  }

  // ---------- the client object ----------

  class Client {
    var nextId: nat
    var pending: seq<nat>
    var buf: string
    var settled: seq<Settlement>
    const replyId: ReplyId

    ghost function Model(): State
      reads this
    {
      State(nextId, pending, buf, settled)
    }

    constructor (replyId: ReplyId)
      ensures Model() == INITIAL && this.replyId == replyId
    {
      nextId, pending, buf, settled := 1, [], "", [];
      this.replyId := replyId;
    }

    method Send(expectReply: bool) returns (id: nat)
      modifies this
      ensures id == old(nextId) && Model() == Step(old(Model()), Event.Send(expectReply), replyId)
    {
      id := nextId;
      nextId := nextId + 1;
      if expectReply {
        pending := pending + [id];
      }
    }

    /** The scan for the brace that closes the object starting at `start`. */
    method FindEnd(start: nat) returns (end: int)
      requires start < |buf|
      ensures match End(buf[start..], START)
              case None => end < 0
              case Some(k) => end == start + k
    {
      var depth, inStr, esc := 0, false, false;
      for i := start to |buf|
        invariant match End(buf[i..], Scan(depth, inStr, esc))
                  case None => End(buf[start..], START).None?
                  case Some(k) => End(buf[start..], START) == Some(i - start + k)
      {
        var ch := buf[i];
        assert buf[i..][0] == ch && buf[i..][1..] == buf[i + 1..];
        if inStr {
          if esc {
            esc := false;
          } else if ch == '\\' {
            esc := true;
          } else if ch == '"' {
            inStr := false;
          }
        } else {
          if ch == '"' {
            inStr := true;
          } else if ch == '{' {
            depth := depth + 1;
          } else if ch == '}' {
            depth := depth - 1;
            if depth == 0 {
              return i;
            }
          }
        }
      }
      return -1;
    }

    method OnMessage(jsonStr: string)
      modifies this
      ensures Model() == Deliver(old(Model()), jsonStr, replyId)
    {
      var id := replyId(jsonStr);
      if id.Some? && id.value in pending {
        pending := Without(pending, id.value);
        settled := settled + [Resolved(id.value, jsonStr)];
      }
    }

    /** Where the first complete object of the buffer is. */
    method FrameBounds() returns (bounds: Option<(nat, nat)>)
      ensures bounds == First(buf)
    {
      var start := IndexOf(buf, '{');
      if start.None? {
        return None;
      }
      var end := FindEnd(start.value);
      if end < 0 {
        return None;
      }
      return Some((start.value, end + 1 - start.value));
    }

    method OnData(chunk: string)
      modifies this
      ensures Model() == Step(old(Model()), Data(chunk), replyId)
    {
      buf := buf + chunk;
      ghost var goal := Drain(Model(), replyId);
      while true
        invariant Drain(Model(), replyId) == goal
        decreases |buf|
      {
        var bounds := FrameBounds();
        if bounds.None? {
          DrainDone(Model(), replyId);
          break;
        }
        var (start, n) := bounds.value;
        DrainStep(Model(), replyId, start, n);
        var jsonStr := buf[start..start + n];
        buf := buf[start + n..];
        OnMessage(jsonStr);
      }
    }

    method OnExit()
      modifies this
      ensures Model() == Step(old(Model()), Exit, replyId)
    {
      for i := 0 to |pending|
        invariant nextId == old(nextId) && pending == old(pending) && buf == old(buf)
        invariant settled == old(settled) + RejectAll(pending)[..i]
      {
        settled := settled + [Rejected(pending[i])];
      }
      pending := [];
    }
  }
}
