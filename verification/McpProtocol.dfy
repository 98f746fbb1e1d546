/** Whole runs of the client of `McpClient`: any interleaving of requests,
    arriving chunks and process exits. */
module McpProtocol {
  import opened Text
  import opened JsonFramer
  import opened McpClient

  function After(events: seq<Event>, replyId: ReplyId): State {
    if events == [] then INITIAL
    else Step(After(events[..|events| - 1], replyId), events[|events| - 1], replyId)
  }

  /** The ids whose senders wait for a reply, in the order sent. */
  function Expecting(events: seq<Event>, replyId: ReplyId): seq<nat> {
    if events == [] then []
    else
      var before, e := events[..|events| - 1], events[|events| - 1];
      Expecting(before, replyId) + if e == Send(true) then [After(before, replyId).nextId] else []
  }

  function Ids(log: seq<Settlement>): (ids: seq<nat>)
    ensures |ids| == |log|
    ensures forall i :: 0 <= i < |log| ==> ids[i] == log[i].id
  {
    seq(|log|, i requires 0 <= i < |log| => log[i].id)
  }

  // ---------- what one event does to the table ----------

  /** Pending ids and settled ids together. */
  function Known(c: State): multiset<nat> {
    multiset(c.pending) + multiset(Ids(c.settled))
  }

  ghost predicate HonestReplies(log: seq<Settlement>, replyId: ReplyId) {
    forall i :: 0 <= i < |log| && log[i].Resolved? ==> replyId(log[i].frame) == Some(log[i].id)
  }

  /** `later` adds settlements to `c` and nothing else happens to the settled ones. */
  ghost predicate Extends(c: State, later: State) {
    |c.settled| <= |later.settled| && later.settled[..|c.settled|] == c.settled
  }

  lemma {:induction false} ExtendsTransitively(a: State, b: State, c: State)
    requires Extends(a, b) && Extends(b, c)
    ensures Extends(a, c)
  {
    assert c.settled[..|a.settled|] == c.settled[..|b.settled|][..|a.settled|];
  }

  lemma {:induction false} DeliverKeeps(c: State, frame: string, replyId: ReplyId)
    ensures var d := Deliver(c, frame, replyId);
      Known(d) == Known(c) && d.nextId == c.nextId && Extends(c, d)
      && (HonestReplies(c.settled, replyId) ==> HonestReplies(d.settled, replyId))
  {
    var d := Deliver(c, frame, replyId);
    if d != c {
      var id := replyId(frame).value;
      assert Ids(d.settled) == Ids(c.settled) + [id];
    }
  }

  lemma {:induction false} DeliverAllKeeps(c: State, frames: seq<string>, replyId: ReplyId)
    ensures var d := DeliverAll(c, frames, replyId);
      Known(d) == Known(c) && d.nextId == c.nextId && Extends(c, d)
      && (HonestReplies(c.settled, replyId) ==> HonestReplies(d.settled, replyId))
    decreases |frames|
  {
    if frames != [] {
      DeliverKeeps(c, frames[0], replyId);
      DeliverAllKeeps(Deliver(c, frames[0], replyId), frames[1..], replyId);
    }
  }

  lemma {:induction false} StepKeeps(c: State, e: Event, replyId: ReplyId)
    ensures var d := Step(c, e, replyId);
      && Known(d) == Known(c) + (if e == Send(true) then multiset{c.nextId} else multiset{})
      && d.nextId == c.nextId + (if e.Send? then 1 else 0)
      && Extends(c, d)
      && (HonestReplies(c.settled, replyId) ==> HonestReplies(d.settled, replyId))
  {
    match e
    case Send(_) =>
    case Data(chunk) =>
      var b := c.(buf := c.buf + chunk);
      DeliverAllKeeps(b, Frames(b.buf).0, replyId);
    case Exit =>
      assert Ids(c.settled + RejectAll(c.pending)) == Ids(c.settled) + c.pending;
  }

  // ---------- every run ----------

  /** Ids waiting for a reply are split between pending and settled, none twice,
      and a resolved id was resolved by a frame that carries it. */
  lemma {:induction false} TableIsPartition(events: seq<Event>, replyId: ReplyId)
    ensures Known(After(events, replyId)) == multiset(Expecting(events, replyId))
    ensures forall id :: Known(After(events, replyId))[id] <= 1
    ensures forall id :: id in Expecting(events, replyId) ==> id < After(events, replyId).nextId
    ensures HonestReplies(After(events, replyId).settled, replyId)
    decreases |events|
  {
    if events != [] {
      var before, e := events[..|events| - 1], events[|events| - 1];
      var c := After(before, replyId);
      TableIsPartition(before, replyId);
      StepKeeps(c, e, replyId);
      assert forall id :: id in Known(c) ==> id in Expecting(before, replyId);
    }
  }

  /** No id is settled twice, and a settled id is no longer pending. */
  lemma {:induction false} SettledOnce(events: seq<Event>, replyId: ReplyId, i: nat)
    requires i < |After(events, replyId).settled|
    ensures var c := After(events, replyId);
      && c.settled[i].id !in c.pending
      && forall j :: 0 <= j < |c.settled| && j != i ==> c.settled[j].id != c.settled[i].id
  {
    var c := After(events, replyId);
    var ids := Ids(c.settled);
    TableIsPartition(events, replyId);
    var id := ids[i];
    assert ids == ids[..i] + [id] + ids[i + 1..];
    assert multiset(ids)[id] == 1 + multiset(ids[..i])[id] + multiset(ids[i + 1..])[id];
    assert Known(c)[id] <= 1;
    forall j | 0 <= j < |ids| && j != i ensures ids[j] != id {
      assert ids[j] in if j < i then ids[..i] else ids[i + 1..];
    }
  }

  /** What has been settled stays settled the same way, whatever happens next. */
  lemma {:induction false} SettledForGood(events: seq<Event>, n: nat, replyId: ReplyId)
    requires n <= |events|
    ensures Extends(After(events[..n], replyId), After(events, replyId))
    decreases |events|
  {
    if n == |events| {
      assert events[..n] == events;
    } else {
      var before := events[..|events| - 1];
      assert before[..n] == events[..n];
      SettledForGood(before, n, replyId);
      StepKeeps(After(before, replyId), events[|events| - 1], replyId);
      ExtendsTransitively(After(events[..n], replyId), After(before, replyId), After(events, replyId));
    }
  }

  /** Right after the process exits nothing is pending: each waiting id has been
      resolved before or is rejected now. */
  lemma {:induction false} ExitSettlesAll(events: seq<Event>, replyId: ReplyId)
    ensures var c := After(events + [Exit], replyId);
      && c.pending == []
      && forall id :: id in Expecting(events, replyId) ==> id in Ids(c.settled)
  {
    var c := After(events + [Exit], replyId);
    assert (events + [Exit])[..|events|] == events;
    TableIsPartition(events + [Exit], replyId);
    assert Expecting(events + [Exit], replyId) == Expecting(events, replyId);
    forall id | id in Expecting(events, replyId) ensures id in Ids(c.settled) {
      assert Known(c)[id] > 0;
    }
  }

  // ---------- chunks ----------

  lemma {:induction false} DeliverAllAppend(c: State, a: seq<string>, b: seq<string>, replyId: ReplyId)
    ensures DeliverAll(c, a + b, replyId) == DeliverAll(DeliverAll(c, a, replyId), b, replyId)
    decreases |a|
  {
    if a == [] {
      assert a + b == b;
    } else {
      assert (a + b)[1..] == a[1..] + b;
      DeliverAllAppend(Deliver(c, a[0], replyId), a[1..], b, replyId);
    }
  }

  /** Cutting a chunk in two changes neither the table nor the buffer. */
  lemma {:induction false} ChunksMerge(c: State, a: string, b: string, replyId: ReplyId)
    ensures Step(Step(c, Data(a), replyId), Data(b), replyId) == Step(c, Data(a + b), replyId)
  {
    var whole := c.buf + a;
    var (f, rest) := Frames(whole);
    var (g, last) := Frames(rest + b);
    assert c.buf + (a + b) == whole + b;
    FramesAppend(whole, b);
    DeliverAllAppend(c, f, g, replyId);
    var d := DeliverAll(c, f, replyId);
    BufferIsCarried(c, f, replyId, whole);
    BufferIsCarried(d, g, replyId, rest + b);
    BufferIsCarried(c, f + g, replyId, whole + b);
  }

  /** All chunks of a stream, one after another. */
  function Receive(c: State, chunks: seq<string>, replyId: ReplyId): State
    decreases |chunks|
  {
    if chunks == [] then c else Receive(Step(c, Data(chunks[0]), replyId), chunks[1..], replyId)
  }

  lemma {:induction false} ReceiveIsOneStep(c: State, chunks: seq<string>, replyId: ReplyId)
    requires chunks != []
    ensures Receive(c, chunks, replyId) == Step(c, Data(Concat(chunks)), replyId)
    decreases |chunks|
  {
    var first, more := chunks[0], chunks[1..];
    if more == [] {
      assert Concat(chunks) == first;
    } else {
      ReceiveIsOneStep(Step(c, Data(first), replyId), more, replyId);
      ChunksMerge(c, first, Concat(more), replyId);
    }
  }

  // ---------- replies in any order, duplicated or missing ----------

  /** The first of the frames that carries the id. */
  function FirstReply(frames: seq<string>, id: nat, replyId: ReplyId): Option<string>
    decreases |frames|
  {
    if frames == [] then None
    else if replyId(frames[0]) == Some(id) then Some(frames[0])
    else FirstReply(frames[1..], id, replyId)
  }

  lemma {:induction false} DeliveredOrPending(c: State, frames: seq<string>, id: nat, replyId: ReplyId)
    requires Known(c)[id] == 1 && id in c.pending
    ensures var d, reply := DeliverAll(c, frames, replyId), FirstReply(frames, id, replyId);
      if reply.None? then id in d.pending
      else id !in d.pending && Resolved(id, reply.value) in d.settled
    decreases |frames|
  {
    if frames != [] {
      var d := Deliver(c, frames[0], replyId);
      DeliverKeeps(c, frames[0], replyId);
      if replyId(frames[0]) == Some(id) {
        assert d.settled[|d.settled| - 1] == Resolved(id, frames[0]);
        DeliverAllKeeps(d, frames[1..], replyId);
        var e := DeliverAll(d, frames[1..], replyId);
        assert e.settled[|d.settled| - 1] == e.settled[..|d.settled|][|d.settled| - 1] == Resolved(id, frames[0]);
        assert Ids(e.settled)[|d.settled| - 1] == id;
        assert Known(e)[id] == 1;
      } else {
        assert id in d.pending by {
          if d != c {
            assert multiset(d.pending) == multiset(c.pending) - multiset{replyId(frames[0]).value};
            assert multiset(d.pending)[id] == multiset(c.pending)[id];
          }
        }
        DeliveredOrPending(d, frames[1..], id, replyId);
      }
    }
  }

  /** Leftover text without an opening brace reads like part of the first separator. */
  lemma {:induction false} LeftoverIsSeparator(buf: string, seps: seq<string>, msgs: seq<Json>)
    requires |seps| == |msgs| + 1 && '{' !in buf
    requires forall i :: 0 <= i < |seps| ==> '{' !in seps[i]
    requires forall m :: m in msgs ==> IsMessage(m)
    ensures Frames(buf + Stream(seps, PrintAll(msgs))).0 == PrintAll(msgs)
  {
    var front := [buf + seps[0]] + seps[1..];
    assert Stream(front, PrintAll(msgs)) == buf + Stream(seps, PrintAll(msgs));
    PrintedAreFrames(msgs);
    StreamFrames(front, PrintAll(msgs));
  }

  /** After any run that left no unfinished text behind, printed messages arriving
      in any chunks resolve each waiting id with the first message that carries
      it; an id no message carries keeps waiting. */
  lemma {:induction false} RepliesReachTheirSenders(
    events: seq<Event>, seps: seq<string>, msgs: seq<Json>, chunks: seq<string>, id: nat, replyId: ReplyId)
    requires |seps| == |msgs| + 1 && chunks != []
    requires forall i :: 0 <= i < |seps| ==> '{' !in seps[i]
    requires forall m :: m in msgs ==> IsMessage(m)
    requires Concat(chunks) == Stream(seps, PrintAll(msgs))
    requires var c := After(events, replyId); '{' !in c.buf && id in c.pending
    ensures var c, d := After(events, replyId), Receive(After(events, replyId), chunks, replyId);
      var reply := FirstReply(PrintAll(msgs), id, replyId);
      && Known(d) == Known(c)
      && if reply.None? then id in d.pending
         else id !in d.pending && Resolved(id, reply.value) in d.settled
  {
    var c := After(events, replyId);
    ReceiveIsOneStep(c, chunks, replyId);
    LeftoverIsSeparator(c.buf, seps, msgs);
    TableIsPartition(events, replyId);
    var b := c.(buf := c.buf + Concat(chunks));
    DeliveredOrPending(b, PrintAll(msgs), id, replyId);
    DeliverAllKeeps(b, PrintAll(msgs), replyId);
  }
}
