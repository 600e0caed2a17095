/**
 * The access-key file and the keys in force: the file may be replaced, broken or changed at any moment, also
 * between the two looks a reload takes. How a text is parsed and digested is left to the caller.
 */
module KeyFile {
  import opened Options

  type Text = string
  type KeyId = nat
  type Digest = nat

  /** What a reload compares to tell whether the file changed. */
  datatype Facts = Facts(mtimeMs: int, size: nat, ino: nat)

  /**
   * What opening and reading the path gave. `Refused`: the file is no small regular file, or others may write
   * it. `Unreadable`: there was no file to look at, or reading it failed.
   */
  datatype Reading = Unreadable | Refused(facts: Facts) | Content(facts: Facts, text: Text)

  /** One reload: what the path looked like, and what was read then, if it was read. */
  datatype Reload = Reload(force: bool, look: Option<Facts>, reading: Reading)

  /**
   * `applied` is the text last put in force and `lastRead` the reading `seen` remembers the facts of; the
   * program keeps neither.
   */
  datatype State = State(keys: seq<KeyId>, seen: Option<Facts>, digest: Option<Digest>, failing: bool,
                         applied: Option<Text>, lastRead: Option<Reading>)

  datatype Rules = Rules(legacy: seq<KeyId>, parse: Text -> Option<seq<KeyId>>, digest: Text -> Digest)

  predicate IsGood(rules: Rules, reading: Reading) {
    reading.Content? && rules.parse(reading.text).Some?
  }

  function KeysOf(rules: Rules, text: Text): seq<KeyId>
    requires rules.parse(text).Some?
  {
    rules.legacy + rules.parse(text).value
  }

  /** Puts a good file in force, and remembers which file was refused. */
  function Applied(rules: Rules, s: State, reading: Reading): State {
    if IsGood(rules, reading) then
      State(KeysOf(rules, reading.text), Some(reading.facts), Some(rules.digest(reading.text)), false,
            Some(reading.text), Some(reading))
    else if reading.Unreadable? then s.(seen := None, failing := true, lastRead := None)
    else s.(seen := Some(reading.facts), failing := true, lastRead := Some(reading))
  }

  function Reloaded(rules: Rules, s: State, r: Reload): State {
    if r.look.None? then s.(seen := None, failing := true, lastRead := None)
    else if !r.force && s.seen == r.look then s
    else Applied(rules, s, r.reading)
  }

  /** Before the first reload: a good file is in force, a bad one is not yet marked as seen. */
  function Started(rules: Rules, initial: seq<KeyId>, reading: Reading): State {
    var s := State(rules.legacy + initial, None, None, false, None, None);
    if IsGood(rules, reading) then Applied(rules, s, reading) else s
  }

  /** The keys and the digest come from one text; `seen` is the last reading's. */
  ghost predicate Inv(rules: Rules, s: State) {
    && (s.applied.Some? ==> rules.parse(s.applied.value).Some? && s.keys == KeysOf(rules, s.applied.value)
                            && s.digest == Some(rules.digest(s.applied.value)))
    && (s.applied.None? <==> s.digest.None?)
    && (s.seen.Some? <==> s.lastRead.Some?)
    && (s.lastRead.Some? ==> !s.lastRead.value.Unreadable? && s.seen == Some(s.lastRead.value.facts))
    && (s.lastRead.Some? && IsGood(rules, s.lastRead.value) ==> s.applied == Some(s.lastRead.value.text))
  }

  lemma ReloadKeeps(rules: Rules, s: State, r: Reload)
    requires Inv(rules, s)
    ensures Inv(rules, Reloaded(rules, s, r))
    ensures !IsGood(rules, r.reading) ==>
              Reloaded(rules, s, r).keys == s.keys && Reloaded(rules, s, r).digest == s.digest
  {
  }

  /** The file did not change during a reload, and is good. */
  ghost predicate HeldStill(rules: Rules, r: Reload) {
    IsGood(rules, r.reading) && r.look == Some(r.reading.facts)
  }

  /**
   * Exactly when a good file that held still is in force after the reload: unless an unforced reload takes it
   * for the file it saw last, and that one had other keys.
   */
  lemma InForceExactly(rules: Rules, s: State, r: Reload)
    requires Inv(rules, s) && HeldStill(rules, r)
    ensures Reloaded(rules, s, r).keys == KeysOf(rules, r.reading.text)
       <==> r.force || s.seen != r.look || s.keys == KeysOf(rules, r.reading.text)
  {
  }

  // --------------------------------------------------------------------------------------- runs

  ghost function AfterAll(rules: Rules, s: State, reloads: seq<Reload>): State
    decreases |reloads|
  {
    if reloads == [] then s else
    var n := |reloads| - 1;
    Reloaded(rules, AfterAll(rules, s, reloads[..n]), reloads[n])
  }

  /** Facts that are equal mean the same file: the same content, and the same mode. */
  ghost predicate FactsTell(readings: set<Reading>) {
    forall a, b | a in readings && b in readings && !a.Unreadable? && !b.Unreadable? && a.facts == b.facts :: a == b
  }

  ghost function Readings(first: Reading, reloads: seq<Reload>): set<Reading> {
    {first} + set r | r in reloads :: r.reading
  }

  /** What the start does: a file that is not good is not marked as seen, so the next reload reads it. */
  lemma StartDoes(rules: Rules, initial: seq<KeyId>, first: Reading)
    ensures var s := Started(rules, initial, first);
            && !s.failing
            && (if first.Content? && rules.parse(first.text).Some?
                then && s.keys == rules.legacy + rules.parse(first.text).value && s.seen == Some(first.facts)
                     && s.digest == Some(rules.digest(first.text)) && s.applied == Some(first.text)
                else s.keys == rules.legacy + initial && s.seen == None && s.digest == None && s.applied == None)
  {
  }

  /** What one reload does, by what it finds. */
  lemma ReloadDoes(rules: Rules, s: State, r: Reload)
    ensures var after := Reloaded(rules, s, r);
            if r.look.Some? && !r.force && s.seen == r.look then after == s
            else if r.look.Some? && r.reading.Content? && rules.parse(r.reading.text).Some?
            then && after.keys == rules.legacy + rules.parse(r.reading.text).value
                 && after.digest == Some(rules.digest(r.reading.text)) && after.applied == Some(r.reading.text)
                 && after.seen == Some(r.reading.facts) && !after.failing
            // It reports the failure, and remembers which file was refused, if there was one to look at.
            else && after.keys == s.keys && after.digest == s.digest && after.applied == s.applied && after.failing
                 && after.seen == if r.look.None? || r.reading.Unreadable? then None else Some(r.reading.facts)
  {
  }

  /**
   * What was last read is one of the readings so far, and the configured keys are in force, beside those of the
   * text last put in force, or beside those of the start.
   */
  lemma {:induction false} RunKeeps(rules: Rules, initial: seq<KeyId>, first: Reading, reloads: seq<Reload>)
    ensures var s := AfterAll(rules, Started(rules, initial, first), reloads);
            && Inv(rules, s) && (s.lastRead.Some? ==> s.lastRead.value in Readings(first, reloads))
            && s.keys == rules.legacy + if s.applied.Some? then rules.parse(s.applied.value).value else initial
    decreases |reloads|
  {
    if reloads != [] {
      var n := |reloads| - 1;
      RunKeeps(rules, initial, first, reloads[..n]);
      ReloadKeeps(rules, AfterAll(rules, Started(rules, initial, first), reloads[..n]), reloads[n]);
      assert reloads[n] in reloads;
      assert Readings(first, reloads[..n]) <= Readings(first, reloads);
    }
  }

  /**
   * However the file was replaced and broken before, and whatever each read met: a good file that holds still
   * during a reload is in force after it, when facts tell files apart.
   */
  lemma NeverSticks(rules: Rules, initial: seq<KeyId>, first: Reading, reloads: seq<Reload>)
    requires reloads != [] && HeldStill(rules, reloads[|reloads| - 1]) && FactsTell(Readings(first, reloads))
    ensures var s := AfterAll(rules, Started(rules, initial, first), reloads);
            var text := reloads[|reloads| - 1].reading.text;
            s.keys == KeysOf(rules, text) && s.digest == Some(rules.digest(text)) && s.applied == Some(text)
  {
    var n := |reloads| - 1;
    var before, r := AfterAll(rules, Started(rules, initial, first), reloads[..n]), reloads[n];
    RunKeeps(rules, initial, first, reloads[..n]);
    assert Readings(first, reloads[..n]) <= Readings(first, reloads);
    assert r in reloads && r.reading in Readings(first, reloads);
    if !r.force && before.seen == r.look {
      assert before.lastRead.value == r.reading;
    }
  }

  /**
   * Where a change of mode alone leaves the facts as they are, it does stick: a file refused because others may
   * write it, and then put right, is not read again until a reload is forced.
   */
  lemma SticksAfterChmod(rules: Rules, s: State, facts: Facts, text: Text)
    requires Inv(rules, s) && rules.parse(text).Some? && s.keys != KeysOf(rules, text)
    ensures var refused := Reloaded(rules, s, Reload(true, Some(facts), Refused(facts)));
            && Reloaded(rules, refused, Reload(false, Some(facts), Content(facts, text))).keys == s.keys
            && Reloaded(rules, refused, Reload(true, Some(facts), Content(facts, text))).keys == KeysOf(rules, text)
  {
  }

  // ------------------------------------------------------------------------------------ the program

  class AccessKeys {
    const rules: Rules
    var records: seq<KeyId>
    var seen: Option<Facts>
    var fileSha256: Option<Digest>
    var reloadError: bool
    ghost var applied: Option<Text>
    ghost var lastRead: Option<Reading>

    ghost function View(): State
      reads this
    {
      State(records, seen, fileSha256, reloadError, applied, lastRead)
    }

    ghost predicate Valid()
      reads this
    {
      Inv(rules, View())
    }

    constructor (initial: seq<KeyId>, rules: Rules, reading: Reading)
      ensures this.rules == rules && Valid() && View() == Started(rules, initial, reading)
    {
      this.rules := rules;
      records, seen, fileSha256, reloadError := rules.legacy + initial, None, None, false;
      applied, lastRead := None, None;
      new;
      var ok, facts := Apply(reading);
    }

    /**
     * Takes what one read gave: all of it when it is good; otherwise nothing changes, and the read's facts are named.
     */
    method Apply(reading: Reading) returns (ok: bool, refused: Option<Facts>)
      modifies this
      ensures ok <==> IsGood(rules, reading)
      ensures ok ==> View() == Applied(rules, old(View()), reading)
      ensures !ok ==> View() == old(View()) && refused == if reading.Unreadable? then None else Some(reading.facts)
    {
      match reading
      case Unreadable => return false, None;
      case Refused(facts) => return false, Some(facts);
      case Content(facts, text) =>
        var keys := rules.parse(text);
        if keys.None? {
          return false, Some(facts);
        }
        records, seen := rules.legacy + keys.value, Some(facts);
        fileSha256, reloadError := Some(rules.digest(text)), false;
        applied, lastRead := Some(text), Some(reading);
        return true, None;
    }

    /** Re-reads the file when it looks changed. Returns whether it was put in force. */
    method DoReload(r: Reload) returns (changed: bool)
      requires Valid()
      modifies this
      ensures Valid() && View() == Reloaded(rules, old(View()), r)
      ensures changed <==> r.look.Some? && (r.force || old(seen) != r.look) && IsGood(rules, r.reading)
    {
      ReloadKeeps(rules, View(), r);
      var refused := None;
      if r.look.Some? {
        if !r.force && seen.Some? && r.look == seen {
          return false;
        }
        var ok;
        ok, refused := Apply(r.reading);
        if ok {
          return true;
        }
      }
      reloadError, seen := true, refused;
      lastRead := if refused.Some? then Some(r.reading) else None;
      return false;
    }
  }
}
