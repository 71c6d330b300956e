/** Failover as such: attempts made one after another until one ends the request, and what the client is told. What an
    attempt does is a parameter here, so these laws hold for every outcome of dials, links and writes. */
module Failover {
  import opened RegistryModel

  datatype Request = Request(service: string, host: string, port: nat, client: string)

  datatype Reason = ServiceRequired | AclDenied | ServiceNotFound | BackendUnreachable | RouteFailed

  datatype Response = OkAt(node: string) | Refused(reason: Reason)

  datatype Effect =
    | Dial(node: string, host: string, port: nat, ok: bool)   // a node dials a backend
    | Hop(src: string, dst: string, request: Request)         // a request crosses a mesh link
    | Reply(response: Response, landed: bool)                 // a response is written to the client

  /** Turn after turn from i on, up to the first that ends the request; `last` follows when none does. */
  function Loop(turn: nat -> seq<Effect>, stops: nat -> bool, last: seq<Effect>, i: nat, n: nat): seq<Effect>
    requires i <= n
    decreases n - i
  {
    if i == n then last
    else if stops(i) then turn(i)
    else turn(i) + Loop(turn, stops, last, i + 1, n)
  }

  // ---- Turns and their effects ----

  ghost predicate Within(a: seq<Effect>, b: seq<Effect>) {
    forall x | x in a :: x in b
  }

  /** Every effect of the loop belongs to the last step or to one of its turns, all of whose effects are there too. */
  lemma {:induction false} EffectHasTurn(turn: nat -> seq<Effect>, stops: nat -> bool, last: seq<Effect>, i: nat,
                                         n: nat, e: Effect)
    requires i <= n && e in Loop(turn, stops, last, i, n)
    ensures e in last || exists k: nat :: i <= k < n && e in turn(k) && Within(turn(k), Loop(turn, stops, last, i, n))
    decreases n - i
  {
    if i < n && e !in turn(i) {
      EffectHasTurn(turn, stops, last, i + 1, n, e);
    }
  }

  /** What happened before turn i, followed by the rest, is the whole request. */
  ghost predicate Leads(done: seq<Effect>, turn: nat -> seq<Effect>, stops: nat -> bool, last: seq<Effect>, i: nat,
                        n: nat)
    requires i <= n
  {
    done + Loop(turn, stops, last, i, n) == Loop(turn, stops, last, 0, n)
  }

  lemma Shift(done: seq<Effect>, turn: seq<Effect>, rest: seq<Effect>)
    ensures done + (turn + rest) == (done + turn) + rest
  {
  }

  lemma LeadsOn(done: seq<Effect>, turn: nat -> seq<Effect>, stops: nat -> bool, last: seq<Effect>, i: nat, n: nat)
    requires i < n && Leads(done, turn, stops, last, i, n)
    ensures if stops(i) then done + turn(i) == Loop(turn, stops, last, 0, n)
            else Leads(done + turn(i), turn, stops, last, i + 1, n)
  {
    Shift(done, turn(i), Loop(turn, stops, last, i + 1, n));
  }

  // ---- What the client is told ----

  function Replies(effects: seq<Effect>): seq<Effect> {
    if effects == [] then []
    else (if effects[0].Reply? then [effects[0]] else []) + Replies(effects[1..])
  }

  lemma {:induction false} JoinReplies(a: seq<Effect>, b: seq<Effect>)
    ensures Replies(a + b) == Replies(a) + Replies(b)
  {
    if a == [] {
      assert a + b == b;
    } else {
      var first, rest := if a[0].Reply? then [a[0]] else [], a[1..];
      JoinReplies(rest, b);
      assert (a + b)[0] == a[0] && (a + b)[1..] == rest + b;
      assert first + (Replies(rest) + Replies(b)) == (first + Replies(rest)) + Replies(b);
    }
  }

  /** The responses among the effects, each as often as it occurs. */
  lemma {:induction false} RepliesExactly(effects: seq<Effect>, e: Effect)
    ensures multiset(Replies(effects))[e] == if e.Reply? then multiset(effects)[e] else 0
  {
    if effects != [] {
      RepliesExactly(effects[1..], e);
      assert effects == [effects[0]] + effects[1..];
    }
  }

  lemma OneReply(r: Effect)
    requires r.Reply?
    ensures Replies([r]) == [r]
  {
    assert [r][1..] == [];
  }

  /** Failover by its responses alone, given which candidates open and which writes succeed. */
  function Answers(self: string, cands: seq<Service>, open: nat -> bool, writes: nat -> bool, i: nat): seq<Effect>
    requires i <= |cands|
    decreases |cands| - i
  {
    if i == |cands| then [Reply(Refused(RouteFailed), writes(i))]
    else if !open(i) then Answers(self, cands, open, writes, i + 1)
    else [Reply(OkAt(cands[i].nodeID), writes(i))] +
         if writes(i) || cands[i].nodeID != self then [] else Answers(self, cands, open, writes, i + 1)
  }

  function OkReply(cands: seq<Service>, open: nat -> bool, writes: nat -> bool, i: nat): seq<Effect>
    requires i < |cands|
  {
    if open(i) then [Reply(OkAt(cands[i].nodeID), writes(i))] else []
  }

  /** Turn j answers exactly when candidate j opens. It ends the request unless the candidate is the node itself and
      the response could not be written. */
  ghost predicate AnswersByTurn(turn: nat -> seq<Effect>, stops: nat -> bool, self: string, cands: seq<Service>,
                                open: nat -> bool, writes: nat -> bool, j: nat)
    requires j < |cands|
  {
    && Replies(turn(j)) == OkReply(cands, open, writes, j)
    && (stops(j) <==> open(j) && (writes(j) || cands[j].nodeID != self))
  }

  lemma LoopRepliesStep(turn: nat -> seq<Effect>, stops: nat -> bool, last: seq<Effect>, i: nat, n: nat)
    requires i < n
    ensures Replies(Loop(turn, stops, last, i, n)) ==
            Replies(turn(i)) + if stops(i) then [] else Replies(Loop(turn, stops, last, i + 1, n))
  {
    JoinReplies(turn(i), Loop(turn, stops, last, i + 1, n));
  }

  lemma AnswersStep(self: string, cands: seq<Service>, open: nat -> bool, writes: nat -> bool, i: nat)
    requires i < |cands|
    ensures Answers(self, cands, open, writes, i) ==
            OkReply(cands, open, writes, i) +
            if open(i) && (writes(i) || cands[i].nodeID != self) then [] else Answers(self, cands, open, writes, i + 1)
  {
  }

  /** The responses among all the effects of the loop are those of the reduced failover. */
  lemma {:induction false} LoopAnswers(turn: nat -> seq<Effect>, stops: nat -> bool, self: string, cands: seq<Service>,
                                       open: nat -> bool, writes: nat -> bool, i: nat)
    requires i <= |cands|
    requires forall j: nat | j < |cands| :: AnswersByTurn(turn, stops, self, cands, open, writes, j)
    ensures Replies(Loop(turn, stops, [Reply(Refused(RouteFailed), writes(|cands|))], i, |cands|)) ==
            Answers(self, cands, open, writes, i)
    decreases |cands| - i
  {
    var last := [Reply(Refused(RouteFailed), writes(|cands|))];
    if i == |cands| {
      OneReply(last[0]);
    } else {
      LoopAnswers(turn, stops, self, cands, open, writes, i + 1);
      assert AnswersByTurn(turn, stops, self, cands, open, writes, i);
      LoopRepliesStep(turn, stops, last, i, |cands|);
      AnswersStep(self, cands, open, writes, i);
    }
  }

  /** Two responses never both reach the client. */
  ghost predicate LandsOnce(replies: seq<Effect>) {
    forall i, j | 0 <= i < j < |replies| && replies[i].Reply?
        && replies[j].Reply? :: !(replies[i].landed && replies[j].landed)
  }

  lemma {:induction false} AnswersLandOnce(self: string, cands: seq<Service>, open: nat -> bool, writes: nat -> bool,
                                           i: nat)
    requires i <= |cands|
    ensures LandsOnce(Answers(self, cands, open, writes, i))
    decreases |cands| - i
  {
    if i < |cands| {
      AnswersLandOnce(self, cands, open, writes, i + 1);
      if open(i) && !writes(i) && cands[i].nodeID == self {
        var rest := Answers(self, cands, open, writes, i + 1);
        assert Answers(self, cands, open, writes, i)[1..] == rest;
        assert Answers(self, cands, open, writes, i) == [Reply(OkAt(cands[i].nodeID), false)] + rest;
      }
    }
  }

  /** k is the first of the candidates from i on that opens. */
  ghost predicate FirstOpen(open: nat -> bool, i: nat, k: nat) {
    i <= k && open(k) && forall j: nat | i <= j < k :: !open(j)
  }

  ghost predicate NoneOpens(open: nat -> bool, i: nat, n: nat) {
    forall j: nat | i <= j < n :: !open(j)
  }

  lemma {:induction false} FirstOpenOrNone(open: nat -> bool, i: nat, n: nat)
    requires i <= n
    ensures NoneOpens(open, i, n) || exists k: nat :: k < n && FirstOpen(open, i, k)
    decreases n - i
  {
    if i < n {
      if open(i) {
        assert FirstOpen(open, i, i);
      } else {
        FirstOpenOrNone(open, i + 1, n);
        if !NoneOpens(open, i + 1, n) {
          var k: nat :| k < n && FirstOpen(open, i + 1, k);
          assert FirstOpen(open, i, k);
        }
      }
    }
  }

  lemma {:induction false} FirstAnswer(self: string, cands: seq<Service>, open: nat -> bool, writes: nat -> bool,
                                       i: nat, k: nat)
    requires i <= |cands| && k < |cands| && FirstOpen(open, i, k) && writes(k)
    ensures Answers(self, cands, open, writes, i) == [Reply(OkAt(cands[k].nodeID), true)]
    decreases |cands| - i
  {
    if i < k {
      FirstAnswer(self, cands, open, writes, i + 1, k);
    }
  }

  lemma {:induction false} NoAnswer(self: string, cands: seq<Service>, open: nat -> bool, writes: nat -> bool, i: nat)
    requires i <= |cands| && NoneOpens(open, i, |cands|)
    ensures Answers(self, cands, open, writes, i) == [Reply(Refused(RouteFailed), writes(|cands|))]
    decreases |cands| - i
  {
    if i < |cands| {
      NoAnswer(self, cands, open, writes, i + 1);
    }
  }

  /** Every candidate fails to open or is a local one whose response could not be written. */
  ghost predicate AllPassedOver(self: string, cands: seq<Service>, open: nat -> bool, writes: nat -> bool, i: nat) {
    forall j | i <= j < |cands| :: !open(j) || (cands[j].nodeID == self && !writes(j))
  }

  ghost predicate FailureSent(replies: seq<Effect>) {
    exists e :: e in replies && e.Reply? && e.response == Refused(RouteFailed)
  }

  lemma FailureAfterOk(node: string, landed: bool, rest: seq<Effect>)
    ensures !FailureSent([Reply(OkAt(node), landed)])
    ensures FailureSent([Reply(OkAt(node), landed)] + rest) <==> FailureSent(rest)
  {
    var all := [Reply(OkAt(node), landed)] + rest;
    assert forall e :: e in all <==> e == Reply(OkAt(node), landed) || e in rest;
  }

  lemma {:induction false} FailureExactly(self: string, cands: seq<Service>, open: nat -> bool, writes: nat -> bool,
                                          i: nat)
    requires i <= |cands|
    ensures FailureSent(Answers(self, cands, open, writes, i)) <==> AllPassedOver(self, cands, open, writes, i)
    decreases |cands| - i
  {
    if i == |cands| {
      assert Reply(Refused(RouteFailed), writes(i)) in Answers(self, cands, open, writes, i);
    } else {
      FailureExactly(self, cands, open, writes, i + 1);
      FailureAfterOk(cands[i].nodeID, writes(i), Answers(self, cands, open, writes, i + 1));
    }
  }
}
