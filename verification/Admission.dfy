/**
 * Load shedding for discovery: so many requests run, so many more wait their turn, and each client has at
 * most its share of both.
 */
module Admission {
  import opened Gates
  import opened Options

  /** A request's place in the order of arrival. */
  type Turn = nat

  ghost predicate Rising(turns: seq<Turn>) {
    forall i, j | 0 <= i < j < |turns| :: turns[i] < turns[j]
  }

  /** Where a turn is in the queue, or the queue's length. */
  function IndexOf(turns: seq<Turn>, turn: Turn): (i: nat)
    ensures i <= |turns| && (i < |turns| ==> turns[i] == turn)
    ensures turn in turns ==> i < |turns|
  {
    if turns == [] || turns[0] == turn then 0 else 1 + IndexOf(turns[1..], turn)
  }

  /** Every request so far has its answer, or waits for it. */
  ghost predicate Answered(answers: map<Turn, bool>, waiting: seq<Turn>, next: Turn) {
    && (forall turn | turn in answers :: turn < next && turn !in waiting)
    && (forall turn | turn in waiting :: turn < next)
    && (forall turn | 0 <= turn < next :: turn in answers || turn in waiting)
  }

  /** `after` has one more answer than `before`, and the others are as they were: no request is answered twice. */
  ghost predicate OneMoreAnswer(before: map<Turn, bool>, after: map<Turn, bool>, turn: Turn, admitted: bool) {
    turn !in before && after == before[turn := admitted]
  }

  /** First come, first served: whoever was handed a turn came before everyone who still waits. */
  ghost predicate InTurn(handed: seq<Turn>, waiting: seq<Turn>, answers: map<Turn, bool>, next: Turn) {
    && Rising(handed) && Rising(waiting)
    && (forall early, late | early in handed && late in waiting :: early < late)
    && (forall turn | turn in handed :: turn < next)
    && Answered(answers, waiting, next)
  }

  lemma InTurnAnswered(handed: seq<Turn>, waiting: seq<Turn>, answers: map<Turn, bool>, next: Turn, admitted: bool)
    requires InTurn(handed, waiting, answers, next)
    ensures InTurn(handed, waiting, answers[next := admitted], next + 1)
  {
  }

  lemma InTurnQueued(handed: seq<Turn>, waiting: seq<Turn>, answers: map<Turn, bool>, next: Turn)
    requires InTurn(handed, waiting, answers, next)
    ensures InTurn(handed, waiting + [next], answers, next + 1)
  {
    var queued := waiting + [next];
    assert forall k | 0 <= k < |waiting| :: queued[k] == waiting[k] && waiting[k] in waiting;
  }

  lemma RisingWithout(turns: seq<Turn>, i: nat)
    requires Rising(turns) && i < |turns|
    ensures Rising(WithoutAt(turns, i)) && turns[i] !in WithoutAt(turns, i)
    ensures forall turn | turn in WithoutAt(turns, i) :: turn in turns
    ensures forall turn | turn in turns && turn != turns[i] :: turn in WithoutAt(turns, i)
  {
    var rest := WithoutAt(turns, i);
    forall k | 0 <= k < |turns| && k != i ensures turns[k] in rest {
      assert rest[if k < i then k else k - 1] == turns[k];
    }
  }

  lemma InTurnRemoved(handed: seq<Turn>, waiting: seq<Turn>, answers: map<Turn, bool>, next: Turn, i: nat,
                      admitted: bool)
    requires InTurn(handed, waiting, answers, next) && i < |waiting|
    ensures InTurn(handed, WithoutAt(waiting, i), answers[waiting[i] := admitted], next) && waiting[i] !in answers
  {
    RisingWithout(waiting, i);
    assert waiting[i] in waiting;
  }

  /** The first of those who wait is before all others, and after all who had their turn. */
  lemma FirstWaits(waiting: seq<Turn>)
    requires Rising(waiting) && waiting != []
    ensures waiting[0] in waiting && Rising(waiting[1..]) && WithoutAt(waiting, 0) == waiting[1..]
    ensures forall late | late in waiting[1..] :: late in waiting && waiting[0] < late
  {
  }

  lemma RisingOn(handed: seq<Turn>, turn: Turn)
    requires Rising(handed) && forall early | early in handed :: early < turn
    ensures Rising(handed + [turn])
  {
    var more := handed + [turn];
    forall i, j | 0 <= i < j < |more| ensures more[i] < more[j] {
      assert more[i] in handed;
    }
  }

  lemma InTurnHanded(handed: seq<Turn>, waiting: seq<Turn>, answers: map<Turn, bool>, next: Turn)
    requires InTurn(handed, waiting, answers, next) && waiting != []
    ensures InTurn(handed + [waiting[0]], waiting[1..], answers[waiting[0] := true], next) && waiting[0] !in answers
  {
    FirstWaits(waiting);
    RisingOn(handed, waiting[0]);
    InTurnRemoved(handed, waiting, answers, next, 0, true);
    HandedIsBefore(handed, waiting, next);
  }

  lemma HandedIsBefore(handed: seq<Turn>, waiting: seq<Turn>, next: Turn)
    requires Rising(waiting) && waiting != [] && waiting[0] < next && (forall turn | turn in handed :: turn < next)
    requires forall early, late | early in handed && late in waiting :: early < late
    ensures forall turn | turn in handed + [waiting[0]] :: turn < next
    ensures forall early, late | early in handed + [waiting[0]] && late in waiting[1..] :: early < late
  {
    FirstWaits(waiting);
    forall early, late | early in handed + [waiting[0]] && late in waiting[1..] ensures early < late {
      assert early in handed || early == waiting[0];
    }
  }

  class DiscoveryAdmission {
    const maxInFlight: int
    const queueLength: int
    const queueTimeoutMs: int
    var running: int
    var waiting: seq<Turn>
    var next: Turn
    /** The requests that run: admitted, and not yet left. */
    ghost var inside: set<Turn>
    /** What each request was answered. */
    ghost var answers: map<Turn, bool>
    /** The turns handed to waiting requests, in order. */
    ghost var handed: seq<Turn>

    ghost predicate Valid()
      reads this
    {
      && maxInFlight >= 1 && queueLength >= 0
      && running == |inside| <= maxInFlight
      && (waiting != [] ==> running == maxInFlight)
      && |waiting| <= queueLength
      && InTurn(handed, waiting, answers, next)
      && (forall turn | turn in inside :: turn in answers && answers[turn])
    }

    constructor (maxInFlight: int, queueLength: int, queueTimeoutMs: int)
      ensures Valid() && inside == {} && waiting == [] && next == 0
    {
      this.maxInFlight := if maxInFlight < 1 then 1 else maxInFlight;
      this.queueLength := if queueLength < 0 then 0 else queueLength;
      this.queueTimeoutMs := if queueTimeoutMs < 0 then 0 else queueTimeoutMs;
      running, waiting, next, inside, answers, handed := 0, [], 0, {}, map[], [];
    }

    /** Asks for a turn: answered at once, or later, when the request waits. */
    method Enter() returns (turn: Turn, answer: Option<bool>)
      requires Valid()
      modifies this
      ensures Valid() && turn == old(next) && next == turn + 1
      ensures answer == Some(true) <==> |old(inside)| < maxInFlight
      ensures answer.None? <==> |old(inside)| == maxInFlight && |old(waiting)| < queueLength && queueTimeoutMs != 0
      ensures answer.Some? ==> OneMoreAnswer(old(answers), answers, turn, answer.value) && waiting == old(waiting)
      ensures answer.None? ==> answers == old(answers) && waiting == old(waiting) + [turn]
      ensures inside == old(inside) + if answer == Some(true) then {turn} else {}
      ensures handed == old(handed)
    {
      turn := next;
      InTurnAnswered(handed, waiting, answers, next, running < maxInFlight);
      InTurnQueued(handed, waiting, answers, next);
      next := next + 1;
      if running < maxInFlight {
        running := running + 1;
        inside, answers := inside + {turn}, answers[turn := true];
        return turn, Some(true);
      }
      if |waiting| >= queueLength || queueTimeoutMs == 0 {
        answers := answers[turn := false];
        return turn, Some(false);
      }
      waiting := waiting + [turn];
      return turn, None;
    }

    /** Gives a turn back: to the request that waits longest, or else to the free slots. */
    method Leave(turn: Turn) returns (granted: Option<Turn>)
      requires Valid() && turn in inside
      modifies this
      ensures Valid() && next == old(next)
      ensures old(waiting) == [] ==>
                granted == None && inside == old(inside) - {turn} && waiting == [] && answers == old(answers)
      ensures old(waiting) != [] ==>
        && granted == Some(old(waiting)[0]) && waiting == old(waiting)[1..]
        && inside == old(inside) - {turn} + {granted.value}
        && OneMoreAnswer(old(answers), answers, granted.value, true)
      ensures handed == old(handed) + if granted.Some? then [granted.value] else []
    {
      inside := inside - {turn};
      if waiting == [] {
        running := if running - 1 < 0 then 0 else running - 1;
        return None;
      }
      InTurnHanded(handed, waiting, answers, next);
      granted := Some(waiting[0]);
      waiting := waiting[1..];
      inside, answers, handed := inside + {granted.value}, answers[granted.value := true], handed + [granted.value];
    }

    /** A waiting request's time is up. */
    method TimeOut(turn: Turn)
      requires Valid() && turn in waiting
      modifies this
      ensures Valid() && next == old(next) && inside == old(inside) && handed == old(handed)
      ensures OneMoreAnswer(old(answers), answers, turn, false)
      ensures exists i :: 0 <= i < |old(waiting)| && old(waiting)[i] == turn && waiting == WithoutAt(old(waiting), i)
    {
      var i := IndexOf(waiting, turn);
      InTurnRemoved(handed, waiting, answers, next, i, false);
      waiting := WithoutAt(waiting, i);
      answers := answers[turn := false];
    }
  }

  /** What a request meets at a lane's door. */
  datatype Door = Limited | Overloaded | Admitted | Queued

  /** One lane of discovery: its admission, and what each client has in it, running or waiting. */
  class Lane {
    const admission: DiscoveryAdmission
    const perClient: int
    var shares: map<Key, nat>
    /** The clients of the requests in the lane, as each request remembers its own. */
    var clients: map<Turn, Key>

    ghost predicate Valid()
      reads this, admission
    {
      && admission.Valid() && Counted(shares, clients)
      && (forall client | client in shares :: shares[client] <= perClient)
      && (forall turn | turn in clients :: turn in admission.inside || turn in admission.waiting)
    }

    constructor (maxInFlight: int, queueLength: int, queueTimeoutMs: int, perClient: int)
      ensures Valid() && fresh(admission) && clients == map[] && this.perClient == perClient
    {
      admission := new DiscoveryAdmission(maxInFlight, queueLength, queueTimeoutMs);
      this.perClient, shares, clients := perClient, map[], map[];
      new;
      forall client ensures HeldBy(map[], client) == {} {}
    }

    /** What a request meets: its client's limit first, then a free slot, then room in the queue. */
    ghost function DoorOf(client: Option<Key>): Door
      reads this, admission
    {
      if client.Some? && |HeldBy(clients, client.value)| >= perClient then Limited
      else if |admission.inside| < admission.maxInFlight then Admitted
      else if |admission.waiting| < admission.queueLength && admission.queueTimeoutMs != 0 then Queued
      else Overloaded
    }

    /** A request is admitted, queued and shed exactly as there is room. */
    lemma DoorIs(client: Option<Key>)
      ensures var door, full := DoorOf(client), |admission.inside| >= admission.maxInFlight;
              var closed := |admission.waiting| >= admission.queueLength || admission.queueTimeoutMs == 0;
              && (door == Limited <==> client.Some? && |HeldBy(clients, client.value)| >= perClient)
              && (door == Admitted <==> door != Limited && !full)
              && (door == Queued <==> door != Limited && full && !closed)
              && (door == Overloaded <==> door != Limited && full && closed)
    {
    }

    /** A request arrives. A client at its limit is turned away before it takes a place. */
    method Arrive(client: Option<Key>) returns (door: Door, turn: Turn)
      requires Valid()
      modifies this, admission
      ensures Valid()
      ensures door == old(DoorOf(client))
      ensures door == Limited ==> admission.next == old(admission.next)
      ensures door != Limited ==> admission.next == old(admission.next) + 1 && turn == old(admission.next)
      ensures admission.inside == old(admission.inside) + if door == Admitted then {turn} else {}
      ensures admission.waiting == old(admission.waiting) + if door == Queued then [turn] else []
      ensures clients == if client.Some? && (door == Admitted || door == Queued) then old(clients)[turn := client.value]
                         else old(clients)
    {
      if client.Some? {
        Undone(clients, admission.next, client.value);
        var entered := EnterShare(client.value, admission.next);
        if !entered {
          return Limited, 0;
        }
      }
      door, turn := Ask();
    }

    /** Asks for a turn for a request that has its share; one that is shed gives it back. */
    method Ask() returns (door: Door, turn: Turn)
      requires admission.Valid() && Counted(shares, clients) && (forall c | c in shares :: shares[c] <= perClient)
      requires forall t | t in clients && t != admission.next :: t in admission.inside || t in admission.waiting
      modifies this, admission
      ensures Valid() && turn == old(admission.next) && admission.next == turn + 1
      ensures door == old(DoorOf(None))
      ensures admission.inside == old(admission.inside) + if door == Admitted then {turn} else {}
      ensures admission.waiting == old(admission.waiting) + if door == Queued then [turn] else []
      ensures clients == if door == Overloaded then old(clients) - {turn} else old(clients)
    {
      var answer;
      turn, answer := admission.Enter();
      if answer == Some(false) {
        LeaveShare(turn);
        return Overloaded, turn;
      }
      return if answer == Some(true) then Admitted else Queued, turn;
    }

    /** Counts a request in its client's share, unless that is used up. */
    method EnterShare(client: Key, turn: Turn) returns (entered: bool)
      requires Counted(shares, clients) && (forall c | c in shares :: shares[c] <= perClient) && turn !in clients
      modifies this
      ensures Counted(shares, clients) && (forall c | c in shares :: shares[c] <= perClient)
      ensures entered <==> |old(HeldBy(clients, client))| < perClient
      ensures clients == if entered then old(clients)[turn := client] else old(clients)
    {
      assert CountOf(shares, client) == |HeldBy(clients, client)|;
      if (if client in shares then shares[client] else 0) >= perClient {
        return false;
      }
      EnteredCounts(shares, clients, turn, client);
      shares := Entered(shares, client);
      clients := clients[turn := client];
      return true;
    }

    /** Takes a request out of its client's share. */
    method LeaveShare(turn: Turn)
      requires Counted(shares, clients) && (forall client | client in shares :: shares[client] <= perClient)
      modifies this
      ensures Counted(shares, clients) && (forall client | client in shares :: shares[client] <= perClient)
      ensures clients == old(clients) - {turn}
    {
      if turn in clients {
        LeftCounts(shares, clients, turn);
        shares := Left(shares, clients[turn]);
        clients := clients - {turn};
      }
    }

    /** A request waited its longest and is refused. */
    method TimeOut(turn: Turn)
      requires Valid() && turn in admission.waiting
      modifies this, admission
      ensures Valid() && clients == old(clients) - {turn} && turn !in admission.waiting && turn !in admission.inside
    {
      admission.TimeOut(turn);
      LeaveShare(turn);
    }

    /** A request is through: its slot goes to whoever waits longest, and it no longer counts in its client's share. */
    method Sent(turn: Turn) returns (granted: Option<Turn>)
      requires Valid() && turn in admission.inside
      modifies this, admission
      ensures Valid() && clients == old(clients) - {turn} && turn !in admission.inside
      ensures granted == if old(admission.waiting) == [] then None else Some(old(admission.waiting)[0])
    {
      granted := admission.Leave(turn);
      LeaveShare(turn);
    }

    /** Each client's share is what it has in the lane, at most its limit, and shares are given for nothing else. */
    lemma SharesAreExact(client: Key)
      requires Valid()
      ensures CountOf(shares, client) == |HeldBy(clients, client)|
      ensures CountOf(shares, client) > 0 ==> CountOf(shares, client) <= perClient
      ensures Total(shares, shares.Keys) == |clients| <= admission.running + |admission.waiting|
    {
      AllCounted(shares, clients);
      var waiting := Members(admission.waiting);
      MembersCount(admission.waiting);
      Subset(clients.Keys, admission.inside + waiting);
      UnionCount(admission.inside, waiting);
    }
  }

  lemma Subset(part: set<Turn>, whole: set<Turn>)
    requires part <= whole
    ensures |part| <= |whole|
  {
    assert whole == part + (whole - part);
  }

  lemma UnionCount(a: set<Turn>, b: set<Turn>)
    ensures |a + b| <= |a| + |b|
  {
    var rest := b - a;
    assert a + b == a + rest;
    Subset(rest, b);
  }

  ghost function Members(turns: seq<Turn>): set<Turn> {
    set turn | turn in turns
  }

  lemma {:induction false} MembersCount(turns: seq<Turn>)
    ensures |Members(turns)| <= |turns|
  {
    if turns == [] {
      assert Members(turns) == {};
    } else {
      MembersCount(turns[1..]);
      assert Members(turns) == {turns[0]} + Members(turns[1..]);
      UnionCount({turns[0]}, Members(turns[1..]));
    }
  }
}
