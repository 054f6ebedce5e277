/** The dedupe and fan-out loop of `check_sms_job` (otp_bot.py, lines 255-264) as a
    specification: the sequence of send attempts one pass over the fetched messages
    makes, given the processed ids at the start and the destination list. */
module Dispatch {
  import opened Classifier
  import opened ChatList

  /** One call of `send_telegram_message`: the destination, the message id, and
      whether the platform accepted it (a failure is caught and only logged). */
  datatype Delivery = Delivery(chat: string, msgId: string, delivered: bool)

  /** The ids of the messages, as the `processed` set collects them. */
  function IdsOf(msgs: seq<Message>): set<string> {
    if msgs == [] then {} else IdsOf(msgs[..|msgs| - 1]) + {msgs[|msgs| - 1].id}
  }

  lemma {:induction false} IdsOfMember(msgs: seq<Message>, x: string)
    ensures x in IdsOf(msgs) <==> exists k :: 0 <= k < |msgs| && msgs[k].id == x
  {
    if msgs != [] {
      var prefix := msgs[..|msgs| - 1];
      IdsOfMember(prefix, x);
      if x in IdsOf(prefix) {
        var k :| 0 <= k < |prefix| && prefix[k].id == x;
        assert msgs[k] == prefix[k];
      }
      if k :| 0 <= k < |msgs| - 1 && msgs[k].id == x {
        assert prefix[k] == msgs[k];
      }
    }
  }

  /** The inner `for cid in chat_ids` loop: one attempt per destination, in order;
      `net` decides which attempts succeed. */
  function Deliveries(chats: seq<string>, m: Message, net: (string, Message) -> bool): seq<Delivery>
  {
    seq(|chats|, k requires 0 <= k < |chats| => Delivery(chats[k], m.id, net(chats[k], m)))
  }

  /** The outer `for msg in messages` loop: a message whose id was processed before
      it (at the start or earlier in this pass) is skipped; any other is sent to
      every destination and then counts as processed. */
  function FanOut(msgs: seq<Message>, chats: seq<string>, seen: set<string>,
                  net: (string, Message) -> bool): seq<Delivery>
  {
    if msgs == [] then []
    else
      var prefix := msgs[..|msgs| - 1];
      var m := msgs[|msgs| - 1];
      FanOut(prefix, chats, seen, net) +
      (if m.id in seen + IdsOf(prefix) then [] else Deliveries(chats, m, net))
  }

  /** The (destination, message id) pairs of a log, ignoring the outcomes. */
  function Attempts(log: seq<Delivery>): seq<(string, string)>
  {
    seq(|log|, k requires 0 <= k < |log| => (log[k].chat, log[k].msgId))
  }

  lemma IdsOfSnoc(msgs: seq<Message>, m: Message)
    ensures IdsOf(msgs + [m]) == IdsOf(msgs) + {m.id}
  {
    assert (msgs + [m])[..|msgs|] == msgs;
  }

  /** One more message extends the log by its block of attempts, in destination
      order, unless its id is processed by then. */
  lemma FanOutSnoc(msgs: seq<Message>, m: Message, chats: seq<string>, seen: set<string>,
                   net: (string, Message) -> bool)
    ensures FanOut(msgs + [m], chats, seen, net) ==
            FanOut(msgs, chats, seen, net) +
            (if m.id in seen + IdsOf(msgs) then [] else Deliveries(chats, m, net))
  {
    assert (msgs + [m])[..|msgs|] == msgs;
  }

  /** `FanOutSnoc` and `IdsOfSnoc` stated for one more element of a prefix. */
  lemma FanOutStep(msgs: seq<Message>, i: nat, chats: seq<string>, seen: set<string>,
                   net: (string, Message) -> bool)
    requires i < |msgs|
    ensures IdsOf(msgs[..i + 1]) == IdsOf(msgs[..i]) + {msgs[i].id}
    ensures FanOut(msgs[..i + 1], chats, seen, net) ==
            FanOut(msgs[..i], chats, seen, net) +
            (if msgs[i].id in seen + IdsOf(msgs[..i]) then [] else Deliveries(chats, msgs[i], net))
  {
    assert msgs[..i + 1] == msgs[..i] + [msgs[i]];
    IdsOfSnoc(msgs[..i], msgs[i]);
    FanOutSnoc(msgs[..i], msgs[i], chats, seen, net);
  }

  /** A message whose id was already processed is never sent, and every attempt is
      about one of the fetched messages. */
  lemma {:induction false} FanOutSkipsProcessed(msgs: seq<Message>, chats: seq<string>, seen: set<string>,
                                                net: (string, Message) -> bool)
    ensures forall k :: 0 <= k < |FanOut(msgs, chats, seen, net)| ==>
              FanOut(msgs, chats, seen, net)[k].msgId !in seen &&
              FanOut(msgs, chats, seen, net)[k].msgId in IdsOf(msgs)
  {
    if msgs != [] {
      var prefix := msgs[..|msgs| - 1];
      var m := msgs[|msgs| - 1];
      assert msgs == prefix + [m];
      FanOutSkipsProcessed(prefix, chats, seen, net);
      IdsOfSnoc(prefix, m);
    }
  }

  /** Every message with a fresh id reaches every destination. */
  lemma {:induction false} FanOutReachesEveryChat(msgs: seq<Message>, chats: seq<string>, seen: set<string>,
                                                  net: (string, Message) -> bool, i: nat, c: string)
    requires i < |msgs| && msgs[i].id !in seen && c in chats
    ensures exists k :: 0 <= k < |FanOut(msgs, chats, seen, net)| &&
              FanOut(msgs, chats, seen, net)[k].chat == c &&
              FanOut(msgs, chats, seen, net)[k].msgId == msgs[i].id
  {
    var prefix := msgs[..|msgs| - 1];
    var m := msgs[|msgs| - 1];
    var before := FanOut(prefix, chats, seen, net);
    var all := FanOut(msgs, chats, seen, net);
    if i < |msgs| - 1 {
      assert prefix[i] == msgs[i];
      FanOutReachesEveryChat(prefix, chats, seen, net, i, c);
      var k :| 0 <= k < |before| && before[k].chat == c && before[k].msgId == msgs[i].id;
      assert all[k] == before[k];
    } else if m.id in IdsOf(prefix) {
      IdsOfMember(prefix, m.id);
      var j :| 0 <= j < |prefix| && prefix[j].id == m.id;
      assert msgs[j] == prefix[j];
      FanOutReachesEveryChat(prefix, chats, seen, net, j, c);
      var k :| 0 <= k < |before| && before[k].chat == c && before[k].msgId == m.id;
      assert all[k] == before[k];
    } else {
      var n :| 0 <= n < |chats| && chats[n] == c;
      assert all[|before| + n] == Deliveries(chats, m, net)[n];
    }
  }

  /** With a duplicate-free destination list, no (destination, id) pair is attempted
      twice: equal ids, such as two cards with the same phone and text, are
      forwarded once. */
  lemma {:induction false} FanOutAtMostOnce(msgs: seq<Message>, chats: seq<string>, seen: set<string>,
                                            net: (string, Message) -> bool)
    requires NoDuplicates(chats)
    ensures NoDuplicates(Attempts(FanOut(msgs, chats, seen, net)))
  {
    if msgs != [] {
      var prefix := msgs[..|msgs| - 1];
      var m := msgs[|msgs| - 1];
      var before := FanOut(prefix, chats, seen, net);
      FanOutAtMostOnce(prefix, chats, seen, net);
      FanOutSkipsProcessed(prefix, chats, seen, net);
      var log := FanOut(msgs, chats, seen, net);
      if m.id !in seen + IdsOf(prefix) {
        var block := Deliveries(chats, m, net);
        assert log == before + block;
        forall a, b | 0 <= a < b < |log| ensures Attempts(log)[a] != Attempts(log)[b] {
          if b >= |before| {
            assert log[b] == block[b - |before|];
            assert log[b].chat == chats[b - |before|] && log[b].msgId == m.id;
            if a >= |before| {
              assert log[a] == block[a - |before|];
              assert log[a].chat == chats[a - |before|];
            } else {
              assert log[a] == before[a];
              assert log[a].msgId in IdsOf(prefix);
            }
          } else {
            assert log[a] == before[a] && log[b] == before[b];
            assert Attempts(before)[a] != Attempts(before)[b];
          }
        }
      } else {
        assert log == before;
      }
    }
  }

  /** A failing send changes only its own outcome flag: which attempts are made,
      and in which order, does not depend on the platform's answers. */
  lemma {:induction false} FanOutIgnoresFailures(msgs: seq<Message>, chats: seq<string>, seen: set<string>,
                                                 net1: (string, Message) -> bool, net2: (string, Message) -> bool)
    ensures Attempts(FanOut(msgs, chats, seen, net1)) == Attempts(FanOut(msgs, chats, seen, net2))
  {
    if msgs != [] {
      var prefix := msgs[..|msgs| - 1];
      var m := msgs[|msgs| - 1];
      FanOutIgnoresFailures(prefix, chats, seen, net1, net2);
      var l1, l2 := FanOut(msgs, chats, seen, net1), FanOut(msgs, chats, seen, net2);
      var b1, b2 := FanOut(prefix, chats, seen, net1), FanOut(prefix, chats, seen, net2);
      assert |b1| == |Attempts(b1)| == |Attempts(b2)| == |b2|;
      forall k | 0 <= k < |l1| ensures Attempts(l1)[k] == Attempts(l2)[k] {
        if k < |b1| {
          assert l1[k] == b1[k] && l2[k] == b2[k];
          assert Attempts(b1)[k] == Attempts(b2)[k];
        }
      }
    }
  }
}
