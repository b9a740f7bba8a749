/** The message list of the open chat (`chatMessages`) and the one
    de-duplicating append that both the `msg` listener and the send handler
    apply to it. */
module Timeline {
  import opened Records

  /** `msgs.some(msg => msg.id === id)` */
  predicate HasMessage(msgs: seq<Message>, id: int)
  {
    exists i :: 0 <= i < |msgs| && msgs[i].id == id
  }

  /** No two entries share an id. */
  predicate UniqueIds(msgs: seq<Message>)
  {
    forall i, j :: 0 <= i < j < |msgs| ==> msgs[i].id != msgs[j].id
  }

  lemma HasMessageAppend(a: seq<Message>, b: seq<Message>, id: int)
    ensures HasMessage(a + b, id) <==> HasMessage(a, id) || HasMessage(b, id)
  {
    if HasMessage(a + b, id) {
      var k :| 0 <= k < |a + b| && (a + b)[k].id == id;
      if k >= |a| { assert b[k - |a|].id == id; }
    }
    if HasMessage(a, id) {
      var k :| 0 <= k < |a| && a[k].id == id;
      assert (a + b)[k].id == id;
    }
    if HasMessage(b, id) {
      var k :| 0 <= k < |b| && b[k].id == id;
      assert (a + b)[|a| + k].id == id;
    }
  }

  /** The updater `prev.some(msg => msg.id === m.id) ? prev : [...prev, m]`:
      the old list is kept as a prefix, the message's id is present
      afterwards, nothing else is added, and a list without duplicate ids
      stays without them. */
  function AppendIfAbsent(msgs: seq<Message>, m: Message): (r: seq<Message>)
    ensures msgs <= r && |r| <= |msgs| + 1
    ensures |r| == |msgs| + 1 <==> !HasMessage(msgs, m.id)
    ensures |r| == |msgs| + 1 ==> r[|msgs|] == m
    ensures forall id :: HasMessage(r, id) <==> HasMessage(msgs, id) || id == m.id
    ensures UniqueIds(msgs) ==> UniqueIds(r)
  {
    if HasMessage(msgs, m.id) then msgs
    else
      AppendedIds(msgs, m);
      msgs + [m]
  }

  lemma AppendedIds(msgs: seq<Message>, m: Message)
    ensures forall id :: HasMessage(msgs + [m], id) <==> HasMessage(msgs, id) || id == m.id
  {
    forall id ensures HasMessage(msgs + [m], id) <==> HasMessage(msgs, id) || id == m.id {
      HasMessageAppend(msgs, [m], id);
      assert [m][0] == m;
    }
  }

  /** A result that reaches `chatMessages`: a `msg` push, together with the
      selection the listener compares it against, or the answer to a send
      (`None` when the POST failed, answered with an error status, or was
      never made). */
  datatype Arrival = Push(msg: Message, seen: Option<Chat>) | SendReply(reply: Option<Message>)

  /** The message an arrival hands to the de-duplicating append, if any: a
      push only when it belongs to the chat the listener sees as open. */
  function Delivered(e: Arrival): Option<Message>
  {
    match e
    case Push(m, seen) => if seen.Some? && m.chatId == seen.value.id then Some(m) else None
    case SendReply(reply) => reply
  }

  /** One arrival applied to the timeline. */
  function Step(msgs: seq<Message>, e: Arrival): (r: seq<Message>)
    ensures Delivered(e).None? ==> r == msgs
    ensures Delivered(e).Some? ==> r == AppendIfAbsent(msgs, Delivered(e).value)
  {
    match e
    case Push(m, seen) => if seen.Some? && m.chatId == seen.value.id then AppendIfAbsent(msgs, m) else msgs
    case SendReply(reply) => if reply.Some? then AppendIfAbsent(msgs, reply.value) else msgs
  }

  /** Arrivals applied one after the other, oldest first. */
  function Replay(msgs: seq<Message>, events: seq<Arrival>): seq<Message>
    decreases |events|
  {
    if events == [] then msgs
    else Step(Replay(msgs, events[..|events| - 1]), events[|events| - 1])
  }

  /** The messages that reach the append, in arrival order. */
  function Reaching(events: seq<Arrival>): seq<Message>
    decreases |events|
  {
    if events == [] then []
    else
      var last := events[|events| - 1];
      Reaching(events[..|events| - 1]) + (if Delivered(last).Some? then [Delivered(last).value] else [])
  }

  /** Reference definition: the entries of `s` whose id is neither among
      `known` nor carried by an earlier entry of `s`, in order. */
  function FirstSeen(s: seq<Message>, known: seq<Message>): seq<Message>
    decreases |s|
  {
    if s == [] then []
    else
      var init, x := s[..|s| - 1], s[|s| - 1];
      FirstSeen(init, known) + (if HasMessage(known, x.id) || HasMessage(init, x.id) then [] else [x])
  }

  /** An id occurs among the first-seen entries exactly when it occurs in
      `s` and is not already known. */
  lemma {:induction false} FirstSeenIds(s: seq<Message>, known: seq<Message>, id: int)
    ensures HasMessage(FirstSeen(s, known), id) <==> HasMessage(s, id) && !HasMessage(known, id)
    decreases |s|
  {
    if s != [] {
      var init, x := s[..|s| - 1], s[|s| - 1];
      assert s == init + [x];
      FirstSeenIds(init, known, id);
      var tail := if HasMessage(known, x.id) || HasMessage(init, x.id) then [] else [x];
      HasMessageAppend(FirstSeen(init, known), tail, id);
      HasMessageAppend(init, [x], id);
      assert HasMessage(tail, id) <==> tail == [x] && x.id == id;
      assert HasMessage([x], id) <==> x.id == id;
    }
  }

  /** Any sequence of pushes and send answers, applied to a timeline, keeps
      that timeline as a prefix and adds after it exactly the first
      occurrence of every id that was not there yet, in arrival order; a
      timeline without duplicate ids stays without them. */
  lemma {:induction false} ReplayAppendsFirstSeen(msgs: seq<Message>, events: seq<Arrival>)
    ensures Replay(msgs, events) == msgs + FirstSeen(Reaching(events), msgs)
    ensures UniqueIds(msgs) ==> UniqueIds(Replay(msgs, events))
    decreases |events|
  {
    if events != [] {
      var init, e := events[..|events| - 1], events[|events| - 1];
      ReplayAppendsFirstSeen(msgs, init);
      var before := Replay(msgs, init);
      var seen := Reaching(init);
      if Delivered(e).Some? {
        var x := Delivered(e).value;
        assert Reaching(events) == seen + [x];
        assert (seen + [x])[..|seen + [x]| - 1] == seen;
        HasMessageAppend(msgs, FirstSeen(seen, msgs), x.id);
        FirstSeenIds(seen, msgs, x.id);
        assert HasMessage(before, x.id) <==> HasMessage(msgs, x.id) || HasMessage(seen, x.id);
      } else {
        assert Reaching(events) == seen;
      }
    }
  }

  /** The same message answered by the send and then echoed by the stream
      ends up once in the timeline: the echo changes nothing. */
  lemma {:induction false} EchoAfterSendIsAbsorbed(msgs: seq<Message>, sent: Message, echo: Message, open: Chat)
    requires echo.id == sent.id && echo.chatId == open.id
    ensures Replay(msgs, [SendReply(Some(sent)), Push(echo, Some(open))]) == AppendIfAbsent(msgs, sent)
  {
    var events := [SendReply(Some(sent)), Push(echo, Some(open))];
    assert events[..1] == [SendReply(Some(sent))];
    assert [SendReply(Some(sent))][..0] == [];
    var once := AppendIfAbsent(msgs, sent);
    assert Replay(msgs, events[..1]) == Step(Replay(msgs, []), events[0]) == once;
    assert HasMessage(once, echo.id);
    assert Replay(msgs, events) == Step(once, events[1]) == AppendIfAbsent(once, echo) == once;
  }
}
