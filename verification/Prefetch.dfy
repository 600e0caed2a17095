/**
 * Bounded prefetch: ledgers are requested ahead, answered in any order, and handed over in order. Whatever
 * the order of the answers, what is handed over is what reading them one by one would give.
 */
module Prefetch {
  import opened Options

  /** What the source answers for a ledger. `sound`: it verifies and continues the chain. */
  datatype Answer = Found(bytes: nat, sound: bool) | Missing | Unreadable

  datatype Outcome = Complete | EndOfSource | ReadError | Rejected | Aborted

  // ------------------------------------------------------------------------- reading one by one

  /** The ledgers handed over by reading one by one, and how the read ends. */
  function Reading(source: int -> Answer, aborted: int -> bool, from: int, to: int): (seq<int>, Outcome)
    decreases to - from
  {
    if from > to then ([], Complete)
    else if aborted(from) then ([], Aborted)
    else match source(from)
      case Missing => ([], EndOfSource)
      case Unreadable => ([], ReadError)
      case Found(_, sound) =>
        if !sound then ([], Rejected) else
        var rest := Reading(source, aborted, from + 1, to);
        ([from] + rest.0, rest.1)
  }

  /** A ledger that is read, verifies, and is handed over. */
  predicate Good(source: int -> Answer, aborted: int -> bool, l: int) {
    !aborted(l) && source(l).Found? && source(l).sound
  }

  /** How a read ends at a ledger that is not handed over. */
  predicate EndsWith(source: int -> Answer, aborted: int -> bool, l: int, outcome: Outcome) {
    && (outcome == Aborted <==> aborted(l))
    && (outcome == EndOfSource <==> !aborted(l) && source(l).Missing?)
    && (outcome == ReadError <==> !aborted(l) && source(l).Unreadable?)
    && (outcome == Rejected <==> !aborted(l) && source(l).Found? && !source(l).sound)
  }

  /** Without gap or repeat, up to the last ledger, or to the first that is not good, which says how the read ends. */
  lemma {:induction false} ReadingIsContiguous(source: int -> Answer, aborted: int -> bool, from: int, to: int)
    ensures forall i | 0 <= i < |Reading(source, aborted, from, to).0| ::
              Reading(source, aborted, from, to).0[i] == from + i && Good(source, aborted, from + i)
    ensures var (ledgers, outcome) := Reading(source, aborted, from, to);
            var at := from + |ledgers|;
            && (outcome == Complete <==> at > to)
            && (from <= to ==> at <= to + 1)
            && (at <= to ==> !Good(source, aborted, at) && EndsWith(source, aborted, at, outcome))
    decreases if from <= to then to - from + 1 else 0
  {
    if from <= to && !aborted(from) && source(from).Found? && source(from).sound {
      ReadingIsContiguous(source, aborted, from + 1, to);
      var ledgers, rest := Reading(source, aborted, from, to).0, Reading(source, aborted, from + 1, to).0;
      assert ledgers == [from] + rest;
      forall i | 0 <= i < |ledgers| ensures ledgers[i] == from + i && Good(source, aborted, from + i) {
        if i > 0 {
          assert ledgers[i] == rest[i - 1] == from + 1 + (i - 1);
        }
      }
    } else {
      assert Reading(source, aborted, from, to).0 == [];
    }
  }

  // ------------------------------------------------------------------------------------- sizes

  function SizeAt(sizes: map<int, nat>, s: int): nat {
    if s in sizes then sizes[s] else 0
  }

  /** The bytes held for the ledgers from `lo` up to, not including, `hi`. */
  function Held(sizes: map<int, nat>, lo: int, hi: int): nat
    decreases hi - lo
  {
    if lo >= hi then 0 else SizeAt(sizes, lo) + Held(sizes, lo + 1, hi)
  }

  /** The bytes held and still to come, counting a request in flight as the largest ledger there is. */
  function Load(sizes: map<int, nat>, arrived: set<int>, largest: nat, lo: int, hi: int): nat
    decreases hi - lo
  {
    if lo >= hi then 0
    else (if lo in arrived then SizeAt(sizes, lo) else largest) + Load(sizes, arrived, largest, lo + 1, hi)
  }

  lemma {:induction false} HeldSame(sizes: map<int, nat>, more: map<int, nat>, lo: int, hi: int)
    requires forall s | lo <= s < hi :: SizeAt(sizes, s) == SizeAt(more, s)
    ensures Held(sizes, lo, hi) == Held(more, lo, hi)
    decreases hi - lo
  {
    if lo < hi {
      HeldSame(sizes, more, lo + 1, hi);
    }
  }

  lemma {:induction false} HeldMore(sizes: map<int, nat>, lo: int, hi: int, s: int, bytes: nat)
    requires lo <= s < hi && s !in sizes
    ensures Held(sizes[s := bytes], lo, hi) == Held(sizes, lo, hi) + bytes
    decreases hi - lo
  {
    if lo == s {
      HeldSame(sizes, sizes[s := bytes], lo + 1, hi);
    } else {
      HeldMore(sizes, lo + 1, hi, s, bytes);
    }
  }

  lemma {:induction false} HeldNext(sizes: map<int, nat>, lo: int, hi: int)
    requires lo <= hi && hi !in sizes
    ensures Held(sizes, lo, hi + 1) == Held(sizes, lo, hi)
    decreases hi - lo
  {
    if lo < hi {
      HeldNext(sizes, lo + 1, hi);
    }
  }

  lemma {:induction false} LoadSame(sizes: map<int, nat>, arrived: set<int>, more: map<int, nat>, now: set<int>,
                                    largest: nat, lo: int, hi: int)
    requires forall s | lo <= s < hi :: SizeAt(sizes, s) == SizeAt(more, s) && (s in arrived <==> s in now)
    ensures Load(sizes, arrived, largest, lo, hi) == Load(more, now, largest, lo, hi)
    decreases hi - lo
  {
    if lo < hi {
      LoadSame(sizes, arrived, more, now, largest, lo + 1, hi);
    }
  }

  /** An answer brings at most what was counted for it. */
  lemma {:induction false} LoadArrives(sizes: map<int, nat>, arrived: set<int>, more: map<int, nat>,
                                       largest: nat, lo: int, hi: int, s: int)
    requires lo <= s < hi && s !in arrived && SizeAt(more, s) <= largest
    requires forall k | lo <= k < hi && k != s :: SizeAt(sizes, k) == SizeAt(more, k)
    ensures Load(more, arrived + {s}, largest, lo, hi) <= Load(sizes, arrived, largest, lo, hi)
    decreases hi - lo
  {
    if lo == s {
      LoadSame(sizes, arrived, more, arrived + {s}, largest, lo + 1, hi);
    } else {
      LoadArrives(sizes, arrived, more, largest, lo + 1, hi, s);
    }
  }

  lemma {:induction false} LoadNext(sizes: map<int, nat>, arrived: set<int>, largest: nat, lo: int, hi: int)
    requires lo <= hi && hi !in arrived
    ensures Load(sizes, arrived, largest, lo, hi + 1) == Load(sizes, arrived, largest, lo, hi) + largest
    decreases hi - lo
  {
    if lo < hi {
      LoadNext(sizes, arrived, largest, lo + 1, hi);
    }
  }

  lemma {:induction false} LoadBetween(sizes: map<int, nat>, arrived: set<int>, largest: nat, lo: int, hi: int)
    requires lo <= hi
    ensures Load(sizes, arrived, largest, lo, hi) <= Held(sizes, lo, hi) + (hi - lo) * largest
    decreases hi - lo
  {
    if lo < hi {
      LoadBetween(sizes, arrived, largest, lo + 1, hi);
      assert (hi - lo) * largest == (hi - (lo + 1)) * largest + largest;
    }
  }

  lemma {:induction false} HeldWithinLoad(sizes: map<int, nat>, arrived: set<int>, largest: nat, lo: int, hi: int)
    requires forall s | lo <= s < hi && s in sizes :: s in arrived
    ensures Held(sizes, lo, hi) <= Load(sizes, arrived, largest, lo, hi)
    decreases hi - lo
  {
    if lo < hi {
      HeldWithinLoad(sizes, arrived, largest, lo + 1, hi);
    }
  }

  // ------------------------------------------------------------------------------- the prefetcher

  /** The window as a value: which ledgers are requested, which of them have arrived, and what is held. */
  datatype State = State(sequence: int, next: int, window: set<int>, sizes: map<int, nat>, held: int, arrived: set<int>)

  datatype Settings = Settings(to: int, concurrency: nat, budget: Option<int>, raw: bool, largest: nat)

  function BudgetOf(c: Settings): int {
    if c.budget.Some? then c.budget.value else 1
  }

  /** The window is exactly the ledgers from the one awaited up to the next to request. */
  ghost predicate Inv(c: Settings, s: State) {
    && c.concurrency >= 1 && (c.raw ==> c.budget.Some?)
    && s.sequence <= s.next && s.next - s.sequence <= c.concurrency
    && (forall k :: k in s.window <==> s.sequence <= k < s.next)
    && (forall k | k in s.sizes :: s.sequence <= k < s.next && k in s.arrived)
    && (forall k | k in s.arrived :: k < s.next)
    && s.held == Held(s.sizes, s.sequence, s.next)
    && (!c.raw ==> s.held == 0)
    && (c.raw && BudgetOf(c) > 0 ==>
          Load(s.sizes, s.arrived, c.largest, s.sequence, s.next) < BudgetOf(c) + c.concurrency * c.largest)
    && (BudgetOf(c) <= 0 ==> s.next == s.sequence)
  }

  /** When answers are held, those in the window are counted with their bytes. */
  ghost predicate Counted(c: Settings, source: int -> Answer, s: State) {
    c.raw ==>
      forall k | s.sequence <= k < s.next && k in s.arrived ::
        SizeAt(s.sizes, k) == if source(k).Found? then source(k).bytes else 0
  }

  /** So what is held stays below the budget and the largest ledger for each request in flight. */
  lemma HeldIsBounded(c: Settings, s: State)
    requires Inv(c, s) && c.budget.Some? && c.budget.value > 0
    ensures s.held < c.budget.value + c.concurrency * c.largest
  {
    HeldWithinLoad(s.sizes, s.arrived, c.largest, s.sequence, s.next);
  }

  /** A request is sent. */
  function Requested(s: State): State {
    s.(window := s.window + {s.next}, next := s.next + 1)
  }

  /** Its answer comes. Its bytes are counted while it is in the window. */
  function Arrived(c: Settings, s: State, k: int, answer: Answer): State {
    if c.raw && answer.Found? && k in s.window then
      s.(arrived := s.arrived + {k}, held := s.held + answer.bytes, sizes := s.sizes[k := answer.bytes])
    else
      s.(arrived := s.arrived + {k})
  }

  /** The awaited ledger is taken. */
  function Taken(s: State): State {
    s.(window := s.window - {s.sequence}, held := s.held - SizeAt(s.sizes, s.sequence),
       sizes := s.sizes - {s.sequence}, sequence := s.sequence + 1)
  }

  ghost predicate MayRequest(c: Settings, s: State) {
    s.next <= c.to && s.next - s.sequence < c.concurrency && (c.budget.Some? ==> s.held < c.budget.value)
  }

  lemma RequestedKeeps(c: Settings, s: State)
    requires Inv(c, s) && MayRequest(c, s)
    ensures Inv(c, Requested(s))
  {
    HeldNext(s.sizes, s.sequence, s.next);
    HeldWithinLoad(s.sizes, s.arrived, c.largest, s.sequence, s.next);
    if c.raw && BudgetOf(c) > 0 {
      LoadBetween(s.sizes, s.arrived, c.largest, s.sequence, s.next);
      LoadNext(s.sizes, s.arrived, c.largest, s.sequence, s.next);
      OneMore(s.next - s.sequence, c.concurrency, c.largest);
    }
  }

  lemma OneMore(n: nat, most: nat, largest: nat)
    requires n < most
    ensures n * largest + largest <= most * largest
  {
    assert (most - n - 1) * largest >= 0;
    assert (most - n - 1) * largest == most * largest - n * largest - largest;
  }

  lemma ArrivedKeeps(c: Settings, s: State, k: int, answer: Answer)
    requires Inv(c, s) && k < s.next && k !in s.arrived && (answer.Found? ==> answer.bytes <= c.largest)
    ensures Inv(c, Arrived(c, s, k, answer))
  {
    var t := Arrived(c, s, k, answer);
    if k in s.window {
      if t.sizes != s.sizes {
        HeldMore(s.sizes, s.sequence, s.next, k, answer.bytes);
      }
      LoadArrives(s.sizes, s.arrived, t.sizes, c.largest, s.sequence, s.next, k);
    } else {
      LoadSame(s.sizes, s.arrived, t.sizes, t.arrived, c.largest, s.sequence, s.next);
    }
  }

  lemma TakenKeeps(c: Settings, s: State)
    requires Inv(c, s) && s.sequence in s.window && s.sequence in s.arrived
    ensures Inv(c, Taken(s))
  {
    var t := Taken(s);
    HeldSame(s.sizes, t.sizes, t.sequence, s.next);
    LoadSame(s.sizes, s.arrived, t.sizes, t.arrived, c.largest, t.sequence, s.next);
  }

  class Reader {
    const source: int -> Answer
    const aborted: int -> bool
    const settings: Settings
    /** The ledger awaited, and the next to request. */
    var sequence: int
    var next: int
    var window: set<int>
    var sizes: map<int, nat>
    var held: int
    /** The ledgers whose answers have come. */
    var arrived: set<int>

    ghost function View(): State
      reads this
    {
      State(sequence, next, window, sizes, held, arrived)
    }

    ghost predicate Valid()
      reads this
    {
      && Inv(settings, View()) && Counted(settings, source, View())
      && forall k :: source(k).Found? ==> source(k).bytes <= settings.largest
    }

    constructor (source: int -> Answer, aborted: int -> bool, from: int, to: int, concurrency: int,
                 budget: Option<int>, fetches: bool, largest: nat)
      requires forall k :: source(k).Found? ==> source(k).bytes <= largest
      ensures Valid() && View() == State(from, from, {}, map[], 0, {})
      ensures this.source == source && this.aborted == aborted
      ensures settings == Settings(to, if concurrency < 1 then 1 else concurrency, budget,
                                   budget.Some? && fetches, largest)
    {
      this.source, this.aborted := source, aborted;
      settings := Settings(to, if concurrency < 1 then 1 else concurrency, budget, budget.Some? && fetches, largest);
      sequence, next, window, sizes, held, arrived := from, from, {}, map[], 0, {};
      new;
      var c := if concurrency < 1 then 1 else concurrency;
      assert settings.concurrency * largest >= 0;
    }

    /** Requests ledgers until enough are under way. None is requested while the budget is used up. */
    method Fill()
      requires Valid()
      modifies this
      ensures Valid() && View() == old(View()).(next := next, window := window) && old(next) <= next
      ensures next > settings.to || next - sequence == settings.concurrency
              || (settings.budget.Some? && held >= settings.budget.value)
      ensures old(next) < next ==>
                next <= settings.to + 1 && (settings.budget.Some? ==> held < settings.budget.value)
    {
      while next <= settings.to && |window| < settings.concurrency
          && (settings.budget.None? || held < settings.budget.value)
        invariant Valid() && View() == old(View()).(next := next, window := window)
        invariant old(next) <= next
        invariant old(next) < next ==>
                    next <= settings.to + 1 && (settings.budget.Some? ==> held < settings.budget.value)
        decreases settings.to - next
      {
        WindowSize(settings, View());
        RequestedKeeps(settings, View());
        window := window + {next};
        next := next + 1;
      }
      WindowSize(settings, View());
    }

    /** The answer to a request comes, whenever it does. */
    method Arrive(k: int)
      requires Valid() && k < next && k !in arrived
      modifies this
      ensures Valid() && View() == Arrived(settings, old(View()), k, source(k))
    {
      ArrivedKeeps(settings, View(), k, source(k));
      if settings.raw && source(k).Found? && k in window {
        held := held + source(k).bytes;
        sizes := sizes[k := source(k).bytes];
      }
      arrived := arrived + {k};
    }

    /** Any answers at all come, in any order. */
    method Elapse()
      requires Valid()
      modifies this
      ensures Valid() && SameWindow(old(View()), View())
    {
      var more: bool := *;
      while more && window - arrived != {}
        invariant Valid() && SameWindow(old(View()), View())
        decreases |window - arrived|
      {
        var k := AnyOf(window - arrived);
        ghost var before := window - arrived;
        Arrive(k);
        assert window - arrived == before - {k};
        more := *;
      }
    }

    /** Waits for one answer, while any others come. */
    method Await(awaited: int)
      requires Valid() && awaited in window
      modifies this
      ensures Valid() && SameWindow(old(View()), View()) && awaited in arrived
    {
      Elapse();
      if awaited !in arrived {
        Arrive(awaited);
        Elapse();
      }
    }

    /** Takes the awaited ledger out of the window. */
    method Take()
      requires Valid() && sequence in window && sequence in arrived
      modifies this
      ensures Valid() && View() == Taken(old(View()))
    {
      TakenKeeps(settings, View());
      window := window - {sequence};
      held := held - if sequence in sizes then sizes[sequence] else 0;
      sizes := sizes - {sequence};
      sequence := sequence + 1;
    }

    /** Waits for the next ledger and takes it. Returns how the read ends there, unless it is handed over. */
    method ReadNext() returns (ends: Option<Outcome>)
      requires Valid() && sequence <= settings.to
      modifies this
      ensures Valid() && sequence <= old(sequence) + 1
      ensures BudgetOf(settings) > 0 ==> (ends.None? <==> Good(source, aborted, old(sequence)))
      ensures BudgetOf(settings) > 0 && ends.Some? ==> EndsWith(source, aborted, old(sequence), ends.value)
      ensures ends.None? ==> sequence == old(sequence) + 1
      ensures BudgetOf(settings) <= 0 ==> ends == Some(if aborted(old(sequence)) then Aborted else EndOfSource)
    {
      if aborted(sequence) {
        return Some(Aborted);
      }
      Fill();
      if sequence !in window {
        NothingAwaited(settings, View());
        return Some(EndOfSource);
      }
      Await(sequence);
      var taken := sequence;
      Take();
      match source(taken)
      case Missing => return Some(EndOfSource);
      case Unreadable => return Some(ReadError);
      case Found(_, sound) =>
        if !sound {
          return Some(Rejected);
        }
        return None;
    }

    /**
     * Reads the range. Whatever the order of the answers, it hands over what reading one by one would, unless
     * the budget is not positive: then it ends at once, without an error, before asking for anything.
     */
    method Run() returns (ledgers: seq<int>, outcome: Outcome)
      requires Valid() && next == sequence
      modifies this
      ensures settings.budget.None? || settings.budget.value > 0
          ==> (ledgers, outcome) == Reading(source, aborted, old(sequence), settings.to)
      ensures settings.budget.Some? && settings.budget.value <= 0 && old(sequence) <= settings.to
          ==> ledgers == [] && outcome == if aborted(old(sequence)) then Aborted else EndOfSource
    {
      ghost var from := sequence;
      ledgers := [];
      RestAll(source, aborted, settings.to, from);
      while sequence <= settings.to
        invariant Valid() && from <= sequence
        invariant BudgetOf(settings) <= 0 ==> sequence == from && ledgers == []
        invariant Rest(source, aborted, settings.to, from, ledgers, sequence)
        decreases settings.to - sequence
      {
        var awaited := sequence;
        var ends := ReadNext();
        RestGoesOn(source, aborted, settings.to, from, ledgers, awaited);
        if ends.Some? {
          return ledgers, ends.value;
        }
        ledgers := ledgers + [awaited];
        Elapse();
      }
      RestGoesOn(source, aborted, settings.to, from, ledgers, sequence);
      return ledgers, Complete;
    }
  }

  /** Any one of the requests in flight. */
  method AnyOf<T(==)>(requests: set<T>) returns (request: T)
    requires requests != {}
    ensures request in requests
  {
    request :| request in requests;
  }

  lemma {:induction false} Interval(window: set<int>, lo: int, hi: int)
    requires lo <= hi && forall k :: k in window <==> lo <= k < hi
    ensures |window| == hi - lo
    decreases hi - lo
  {
    if lo < hi {
      Interval(window - {lo}, lo + 1, hi);
    } else {
      assert window == {};
    }
  }

  lemma WindowSize(c: Settings, s: State)
    requires Inv(c, s)
    ensures |s.window| == s.next - s.sequence
  {
    Interval(s.window, s.sequence, s.next);
  }

  ghost predicate SameWindow(s: State, t: State) {
    t.window == s.window && t.sequence == s.sequence && t.next == s.next && s.arrived <= t.arrived
  }

  /** An empty window holds nothing, so unless the budget shuts everything out the awaited ledger is requested. */
  lemma NothingAwaited(c: Settings, s: State)
    requires Inv(c, s) && !MayRequest(c, s) && s.sequence <= c.to && s.sequence !in s.window
    ensures c.budget.Some? && c.budget.value <= 0
  {
    assert s.next == s.sequence;
  }

  /** `ledgers` were handed over from `from` on; what is left is to read on from `at`. */
  ghost predicate Rest(source: int -> Answer, aborted: int -> bool, to: int, from: int, ledgers: seq<int>, at: int) {
    var whole, rest := Reading(source, aborted, from, to), Reading(source, aborted, at, to);
    whole == (ledgers + rest.0, rest.1)
  }

  lemma RestAll(source: int -> Answer, aborted: int -> bool, to: int, from: int)
    ensures Rest(source, aborted, to, from, [], from)
  {
    var rest := Reading(source, aborted, from, to).0;
    assert [] + rest == rest;
  }

  lemma RestGoesOn(source: int -> Answer, aborted: int -> bool, to: int, from: int, ledgers: seq<int>, at: int)
    requires Rest(source, aborted, to, from, ledgers, at)
    ensures at > to ==> Reading(source, aborted, from, to) == (ledgers, Complete)
    ensures at <= to && Good(source, aborted, at) ==> Rest(source, aborted, to, from, ledgers + [at], at + 1)
    ensures at <= to && !Good(source, aborted, at) ==>
              forall outcome | EndsWith(source, aborted, at, outcome) ::
                Reading(source, aborted, from, to) == (ledgers, outcome)
  {
    assert ledgers + [] == ledgers;
    var rest := Reading(source, aborted, at + 1, to).0;
    assert ledgers + ([at] + rest) == (ledgers + [at]) + rest;
  }
}
