/**
  One poll of the secondary database (`checkDekanatDb`, dekanat.go): build the
  current snapshot, load the previous one, and when they differ persist the
  new one first, publish the year event (only when the year changed) and the
  loaded event, and write the old bytes back if a publish fails.

  `Cycle` states what one poll does to the outside world as a function of the
  scripted collaborators; `CheckDekanatDb` is the step-by-step orchestrator
  and is proved to do exactly that. The lemmas after them state the saga's
  guarantees about `Cycle`.
 */
module Dekanat {
  import opened Wrappers
  import opened Calendar
  import opened World
  import opened DbState
  import opened DekanatSource
  import opened MetaEventbus

  /** The error `json.Unmarshal` reports for stored bytes that encode no snapshot. */
  const UnmarshalErrorMessage := "cannot unmarshal stored state"

  function CallEffects(calls: seq<DbCall>): (e: seq<Effect>)
    ensures |e| == |calls|
    ensures forall i :: 0 <= i < |calls| ==> e[i] == Called(calls[i])
  {
    if calls == [] then [] else [Called(calls[0])] + CallEffects(calls[1..])
  }

  /** The previous snapshot held in the bytes `Get` returned; nil bytes stand for the zero snapshot. */
  function DecodePrevious(bytes: Option<Bytes>): (r: Option<DbState>)
    ensures r.Some? ==> WellFormed(r.value)
    ensures bytes.None? ==> r == Some(ZeroState)
  {
    ZeroIsValid();
    if bytes.None? then Some(ZeroState) else Deserialize(bytes.value)
  }

  /** What one poll does: the effects in order, the error it returns, and the store afterwards. */
  datatype CycleOutcome = CycleOutcome(effects: seq<Effect>, err: Option<string>, store: StoreView)

  /** A reading as `makeDbState` produces it: a snapshot it returns is well formed. */
  predicate Sound(reading: Reading) {
    reading.state.Success? ==> WellFormed(reading.state.value)
  }

  /** The outcome `o` preceded by the effects `e`. */
  function After(e: seq<Effect>, o: CycleOutcome): CycleOutcome {
    o.(effects := e + o.effects)
  }

  /**
    One poll, given the reading the database gave (`MakeDbState`), a store
    in state `store` and a writer failing as `failures` says.
   */
  function Cycle(reading: Reading, store: StoreView, failures: map<string, string>): CycleOutcome
    requires Sound(reading)
  {
    var queried := CallEffects(reading.calls);
    match reading.state
    case Failure(e) => CycleOutcome(queried, Some("Failed to get DB state: " + e), store)
    case Success(current) => After(queried + [StoreGet], Compare(current, store, failures))
  }

  /** The poll once the store has been read: decode, compare, and write on a change. */
  function Compare(current: DbState, store: StoreView, failures: map<string, string>): CycleOutcome
    requires WellFormed(current)
  {
    var decoded := DecodePrevious(store.slot);
    if store.getFailure.Some? then
      CycleOutcome([], Some("Failed to get previous DB state from Storage: " + store.getFailure.value), store)
    else if decoded.None? then
      CycleOutcome([], Some("Failed to get previous DB state from Storage: " + UnmarshalErrorMessage), store)
    else if IsEqual(decoded.value, current) then
      CycleOutcome([], None, store)
    else
      Persist(current, decoded.value, store.slot, store, failures)
  }

  /** The poll on a change: store the new snapshot, then publish unless the store refused it. */
  function Persist(current: DbState, previous: DbState, previousBytes: Option<Bytes>,
                   store: StoreView, failures: map<string, string>): CycleOutcome
  {
    var newBytes := Some(Serialize(current));
    if ScriptAt(store.setScript, store.setCalls).Some? then
      CycleOutcome([StoreSet(newBytes)], ScriptAt(store.setScript, store.setCalls), AfterSet(store, newBytes))
    else
      After([StoreSet(newBytes)], Publish(current, previous, previousBytes, AfterSet(store, newBytes), failures))
  }

  /**
    The poll once the new snapshot is stored: the year event when the year
    changed, then the loaded event; a failed send writes `previousBytes`
    back and ends the poll.
   */
  function Publish(current: DbState, previous: DbState, previousBytes: Option<Bytes>,
                   store: StoreView, failures: map<string, string>): CycleOutcome
  {
    var yearSent := if current.educationYear != previous.educationYear then [Sent(YearMessage(current.educationYear))] else [];
    var rollback := [StoreSet(previousBytes)];
    if yearSent != [] && CurrentYearEventName in failures then
      CycleOutcome(yearSent + rollback,
        Some("Failed to send Current year event to Kafka: " + failures[CurrentYearEventName]),
        AfterSet(store, previousBytes))
    else
      var loaded := [Sent(LoadedMessage(current.actualDatetime, previous.actualDatetime, current.educationYear))];
      if SecondaryDbLoadedEventName in failures then
        CycleOutcome(yearSent + loaded + rollback,
          Some("Failed to send Secondary DB loaded Event to Kafka: " + failures[SecondaryDbLoadedEventName]),
          AfterSet(store, previousBytes))
      else
        CycleOutcome(yearSent + loaded, None, store)
  }

  /** `checkDekanatDb`. */
  method CheckDekanatDb(db: SecondaryDb, storage: Store, eventbus: MetaEventbus) returns (err: Option<string>)
    requires GetDbStateDatetime(db).Success? ==> Sliceable(db.firstRegDate)
    requires eventbus.writer.journal == storage.journal
    modifies storage, storage.journal
    ensures var c := Cycle(MakeDbState(db), old(storage.View()), eventbus.writer.failures);
      && storage.journal.effects == old(storage.journal.effects) + c.effects
      && err == c.err
      && storage.View() == c.store
  {
    var reading := MakeDbState(db);
    err := Reconcile(reading, storage, eventbus);
  }

  /**
    `checkDekanatDb` once `makeDbState` has run: report its calls and its
    error, or load the previous snapshot, compare, and propagate a change.
   */
  method Reconcile(reading: Reading, storage: Store, eventbus: MetaEventbus) returns (err: Option<string>)
    requires Sound(reading)
    requires eventbus.writer.journal == storage.journal
    modifies storage, storage.journal
    ensures var c := Cycle(reading, old(storage.View()), eventbus.writer.failures);
      && storage.journal.effects == old(storage.journal.effects) + c.effects
      && err == c.err
      && storage.View() == c.store
  {
    storage.journal.Record(CallEffects(reading.calls));
    if reading.state.Failure? {
      return Some("Failed to get DB state: " + reading.state.error);
    }
    var currentState := reading.state.value;
    ghost var view := old(storage.View());
    ghost var failures := eventbus.writer.failures;
    CycleRead(reading, view, failures);

    var previousState, previousStateSerialized, getErr := LoadPrevious(storage);
    if getErr.Some? {
      CompareReadFailure(currentState, view, failures);
      return Some("Failed to get previous DB state from Storage: " + getErr.value);
    }

    if IsEqual(previousState, currentState) {
      CompareUnchanged(currentState, view, failures);
      return None;
    }

    CompareChanged(currentState, view, failures);
    ghost var got := CallEffects(reading.calls) + [StoreGet];
    ghost var rest := Persist(currentState, previousState, previousStateSerialized, view, failures);
    err := StoreAndPublish(currentState, previousState, previousStateSerialized, storage, eventbus);
    Associative(old(storage.journal.effects), got, rest.effects);
  }

  /**
    The read of the previous snapshot (dekanat.go:42-51): the bytes `Get`
    returned, the snapshot they decode to (the zero one for nil bytes), and
    the error of `Get` or of the decoding.
   */
  method LoadPrevious(storage: Store) returns (previousState: DbState, previousStateSerialized: Option<Bytes>, err: Option<string>)
    modifies storage.journal
    ensures storage.journal.effects == old(storage.journal.effects) + [StoreGet]
    ensures previousStateSerialized == (if storage.getFailure.Some? then None else storage.slot)
    ensures err.None? <==> Readable(storage.View())
    ensures err.Some? ==> err.value == (if storage.getFailure.Some? then storage.getFailure.value else UnmarshalErrorMessage)
    ensures err.None? ==> previousState == DecodePrevious(storage.slot).value
  {
    previousState := ZeroState;
    ZeroIsValid();
    previousStateSerialized, err := storage.Get();
    if previousStateSerialized.Some? && err.None? {
      match Deserialize(previousStateSerialized.value)
      case None =>
        err := Some(UnmarshalErrorMessage);
      case Some(decoded) =>
        previousState := decoded;
    }
  }

  /** A failed or undecodable read ends the comparison with the prefixed error. */
  lemma CompareReadFailure(current: DbState, store: StoreView, failures: map<string, string>)
    requires WellFormed(current) && !Readable(store)
    ensures Compare(current, store, failures) == CycleOutcome([],
      Some("Failed to get previous DB state from Storage: "
           + if store.getFailure.Some? then store.getFailure.value else UnmarshalErrorMessage), store)
  {
  }

  /** A readable snapshot different from the current one goes on to `Persist`. */
  lemma CompareChanged(current: DbState, store: StoreView, failures: map<string, string>)
    requires WellFormed(current) && Readable(store)
    requires !IsEqual(DecodePrevious(store.slot).value, current)
    ensures Compare(current, store, failures) == Persist(current, DecodePrevious(store.slot).value, store.slot, store, failures)
  {
  }

  lemma Associative(a: seq<Effect>, b: seq<Effect>, c: seq<Effect>)
    ensures a + b + c == a + (b + c)
  {
  }

  /** The change path of `checkDekanatDb`: persist the new snapshot, then publish. */
  method StoreAndPublish(currentState: DbState, previousState: DbState, previousStateSerialized: Option<Bytes>,
                         storage: Store, eventbus: MetaEventbus) returns (err: Option<string>)
    requires eventbus.writer.journal == storage.journal
    modifies storage, storage.journal
    ensures var c := Persist(currentState, previousState, previousStateSerialized, old(storage.View()), eventbus.writer.failures);
      && storage.journal.effects == old(storage.journal.effects) + c.effects
      && err == c.err
      && storage.View() == c.store
  {
    err := storage.Set(Some(Serialize(currentState)));
    if err.Some? {
      return err;
    }
    PersistWritten(currentState, previousState, previousStateSerialized, old(storage.View()), eventbus.writer.failures);
    err := PublishEvents(currentState, previousState, previousStateSerialized, storage, eventbus);
    Associative(old(storage.journal.effects), [StoreSet(Some(Serialize(currentState)))],
      Publish(currentState, previousState, previousStateSerialized, AfterSet(old(storage.View()), Some(Serialize(currentState))),
              eventbus.writer.failures).effects);
  }

  /** The events of a stored change: the year event when the year changed, then the loaded event; a failed send writes the old bytes back. */
  method PublishEvents(currentState: DbState, previousState: DbState, previousStateSerialized: Option<Bytes>,
                       storage: Store, eventbus: MetaEventbus) returns (err: Option<string>)
    requires eventbus.writer.journal == storage.journal
    modifies storage, storage.journal
    ensures var c := Publish(currentState, previousState, previousStateSerialized, old(storage.View()), eventbus.writer.failures);
      && storage.journal.effects == old(storage.journal.effects) + c.effects
      && err == c.err
      && storage.View() == c.store
  {
    if currentState.educationYear != previousState.educationYear {
      err := eventbus.SendCurrentYearEvent(currentState.educationYear);
      if err.Some? {
        var _ := storage.Set(previousStateSerialized);
        return Some("Failed to send Current year event to Kafka: " + err.value);
      }
    }

    err := eventbus.SendSecondaryDbLoadedEvent(
      currentState.actualDatetime, previousState.actualDatetime,
      currentState.educationYear);
    if err.Some? {
      var _ := storage.Set(previousStateSerialized);
      return Some("Failed to send Secondary DB loaded Event to Kafka: " + err.value);
    }
    return None;
  }

  // ------------------------------------------------------------------ the saga's guarantees

  /** The store holds a previous snapshot that can be read back. */
  predicate Readable(store: StoreView) {
    store.getFailure.None? && DecodePrevious(store.slot).Some?
  }

  /** The snapshot read from the database differs from the stored one. */
  predicate Changed(reading: Reading, store: StoreView)
    requires Sound(reading)
  {
    && reading.state.Success?
    && Readable(store)
    && !IsEqual(DecodePrevious(store.slot).value, reading.state.value)
  }

  /** A good reading: the database calls and the read of the store, then the comparison. */
  lemma CycleRead(reading: Reading, store: StoreView, failures: map<string, string>)
    requires Sound(reading) && reading.state.Success?
    ensures Cycle(reading, store, failures)
      == After(CallEffects(reading.calls) + [StoreGet], Compare(reading.state.value, store, failures))
  {
  }

  /** On a change, the comparison hands the decoded snapshot and the bytes read to `Persist`. */
  lemma CycleChanged(reading: Reading, store: StoreView, failures: map<string, string>)
    requires Sound(reading) && Changed(reading, store)
    ensures Cycle(reading, store, failures)
      == After(CallEffects(reading.calls) + [StoreGet],
               Persist(reading.state.value, DecodePrevious(store.slot).value, store.slot, store, failures))
  {
    CycleRead(reading, store, failures);
  }

  /** After a good write, `Persist` is the write followed by `Publish` on the updated store. */
  lemma PersistWritten(current: DbState, previous: DbState, previousBytes: Option<Bytes>,
                       store: StoreView, failures: map<string, string>)
    requires ScriptAt(store.setScript, store.setCalls).None?
    ensures var newBytes := Some(Serialize(current));
      Persist(current, previous, previousBytes, store, failures)
        == After([StoreSet(newBytes)], Publish(current, previous, previousBytes, AfterSet(store, newBytes), failures))
  {
  }

  /** The database calls and the read of the store neither write nor publish. */
  lemma ReadsOnly(calls: seq<DbCall>)
    ensures var got := CallEffects(calls) + [StoreGet];
      forall i :: 0 <= i < |got| ==> !got[i].StoreSet? && !got[i].Sent?
  {
    var got := CallEffects(calls) + [StoreGet];
    forall i | 0 <= i < |got| ensures !got[i].StoreSet? && !got[i].Sent? {
      if i < |calls| {
        assert got[i] == Called(calls[i]);
      }
    }
  }

  /** On a change that the store accepts, the poll is the reads, the write, then `Publish` on the updated store. */
  lemma CycleWritten(reading: Reading, store: StoreView, failures: map<string, string>)
    requires Sound(reading) && Changed(reading, store) && ScriptAt(store.setScript, store.setCalls).None?
    ensures var current := reading.state.value;
      var newBytes := Some(Serialize(current));
      var p := Publish(current, DecodePrevious(store.slot).value, store.slot, AfterSet(store, newBytes), failures);
      Cycle(reading, store, failures)
        == CycleOutcome(CallEffects(reading.calls) + [StoreGet, StoreSet(newBytes)] + p.effects, p.err, p.store)
  {
    var current := reading.state.value;
    var newBytes := Some(Serialize(current));
    var p := Publish(current, DecodePrevious(store.slot).value, store.slot, AfterSet(store, newBytes), failures);
    CycleChanged(reading, store, failures);
    PersistWritten(current, DecodePrevious(store.slot).value, store.slot, store, failures);
    assert CallEffects(reading.calls) + [StoreGet] + ([StoreSet(newBytes)] + p.effects)
        == CallEffects(reading.calls) + [StoreGet, StoreSet(newBytes)] + p.effects;
  }

  /** A failure to build the current snapshot returns an error before the store or the bus is touched. */
  lemma CycleSourceFailure(reading: Reading, store: StoreView, failures: map<string, string>)
    requires Sound(reading)
    requires reading.state.Failure?
    ensures var c := Cycle(reading, store, failures);
      && c.err.Some?
      && (forall i :: 0 <= i < |c.effects| ==> c.effects[i].Called?)
      && c.store == store
  {
  }

  /** A failed or undecodable read of the previous snapshot returns an error with no write and no publish. */
  lemma CycleStoreReadFailure(reading: Reading, store: StoreView, failures: map<string, string>)
    requires Sound(reading)
    requires reading.state.Success? && !Readable(store)
    ensures var c := Cycle(reading, store, failures);
      && c.err.Some?
      && (forall i :: 0 <= i < |c.effects| ==> !c.effects[i].StoreSet? && !c.effects[i].Sent?)
      && c.store == store
  {
    CycleRead(reading, store, failures);
    ReadsOnly(reading.calls);
    var e := if store.getFailure.Some? then store.getFailure.value else UnmarshalErrorMessage;
    assert Compare(reading.state.value, store, failures)
      == CycleOutcome([], Some("Failed to get previous DB state from Storage: " + e), store);
    assert Cycle(reading, store, failures)
      == CycleOutcome(CallEffects(reading.calls) + [StoreGet], Some("Failed to get previous DB state from Storage: " + e), store);
  }

  /** An unchanged snapshot succeeds with no write and no publish. */
  lemma CycleUnchanged(reading: Reading, store: StoreView, failures: map<string, string>)
    requires Sound(reading)
    requires reading.state.Success? && Readable(store)
    requires IsEqual(DecodePrevious(store.slot).value, reading.state.value)
    ensures var c := Cycle(reading, store, failures);
      && c.err.None?
      && (forall i :: 0 <= i < |c.effects| ==> !c.effects[i].StoreSet? && !c.effects[i].Sent?)
      && c.store == store
  {
    CycleRead(reading, store, failures);
    CompareUnchanged(reading.state.value, store, failures);
    ReadsOnly(reading.calls);
    assert Cycle(reading, store, failures) == CycleOutcome(CallEffects(reading.calls) + [StoreGet], None, store);
  }

  /** The comparison of a snapshot equal to the stored one ends the poll. */
  lemma CompareUnchanged(current: DbState, store: StoreView, failures: map<string, string>)
    requires WellFormed(current) && Readable(store)
    requires IsEqual(DecodePrevious(store.slot).value, current)
    ensures Compare(current, store, failures) == CycleOutcome([], None, store)
  {
  }

  /**
    On a change, the first write to the store is the new snapshot, and it
    comes before any publish: every effect before it is a database call or
    the read of the store.
   */
  lemma CycleWritesBeforePublishing(reading: Reading, store: StoreView, failures: map<string, string>)
    requires Sound(reading)
    requires Changed(reading, store)
    ensures var c := Cycle(reading, store, failures);
      var k := |reading.calls| + 1;
      && k < |c.effects|
      && c.effects[k] == StoreSet(Some(Serialize(reading.state.value)))
      && (forall i :: 0 <= i < k ==> !c.effects[i].StoreSet? && !c.effects[i].Sent?)
  {
    CycleChanged(reading, store, failures);
  }

  /** A failed write of the new snapshot is returned as it is, and nothing is published. */
  lemma CycleWriteFailure(reading: Reading, store: StoreView, failures: map<string, string>)
    requires Sound(reading)
    requires Changed(reading, store) && ScriptAt(store.setScript, store.setCalls).Some?
    ensures var c := Cycle(reading, store, failures);
      && c.err == ScriptAt(store.setScript, store.setCalls)
      && (forall i :: 0 <= i < |c.effects| ==> !c.effects[i].Sent?)
      && c.store.slot == store.slot
  {
    CycleChanged(reading, store, failures);
  }

  /** After a good write, the year event is attempted exactly when the education year changed, and carries the new year. */
  lemma CycleYearEventIff(reading: Reading, store: StoreView, failures: map<string, string>)
    requires Sound(reading)
    requires Changed(reading, store) && ScriptAt(store.setScript, store.setCalls).None?
    ensures var current := reading.state.value;
      var previous := DecodePrevious(store.slot).value;
      (Sent(YearMessage(current.educationYear)) in Cycle(reading, store, failures).effects <==>
       current.educationYear != previous.educationYear)
  {
    var current := reading.state.value;
    var previous := DecodePrevious(store.slot).value;
    var newBytes := Some(Serialize(current));
    var p := Publish(current, previous, store.slot, AfterSet(store, newBytes), failures);
    CycleWritten(reading, store, failures);
    WrittenYearEvent(reading.calls, newBytes, current, previous, store.slot, AfterSet(store, newBytes), failures);
  }

  /** After the reads and the write, the year message is among the effects exactly when `Publish` sends it. */
  lemma WrittenYearEvent(calls: seq<DbCall>, newBytes: Option<Bytes>, current: DbState, previous: DbState,
                         previousBytes: Option<Bytes>, store: StoreView, failures: map<string, string>)
    ensures var p := Publish(current, previous, previousBytes, store, failures);
      (Sent(YearMessage(current.educationYear)) in CallEffects(calls) + [StoreGet, StoreSet(newBytes)] + p.effects
       <==> current.educationYear != previous.educationYear)
  {
    var p := Publish(current, previous, previousBytes, store, failures);
    var year := Sent(YearMessage(current.educationYear));
    PublishYearEvent(current, previous, previousBytes, store, failures);
    assert year !in CallEffects(calls);
    assert CallEffects(calls) + [StoreGet, StoreSet(newBytes)] + p.effects
        == CallEffects(calls) + ([StoreGet, StoreSet(newBytes)] + p.effects);
  }

  /** `Publish` sends the year message exactly when the education year changed. */
  lemma PublishYearEvent(current: DbState, previous: DbState, previousBytes: Option<Bytes>,
                         store: StoreView, failures: map<string, string>)
    ensures Sent(YearMessage(current.educationYear)) in Publish(current, previous, previousBytes, store, failures).effects
        <==> current.educationYear != previous.educationYear
  {
    var p := Publish(current, previous, previousBytes, store, failures);
    if current.educationYear != previous.educationYear {
      assert p.effects[0] == Sent(YearMessage(current.educationYear));
    }
  }

  /** The keys of the messages sent, in the order they were sent. */
  function SentKeys(effects: seq<Effect>): (r: seq<string>)
    ensures |r| <= |effects|
  {
    if effects == [] then []
    else (if effects[0].Sent? then [effects[0].message.key] else []) + SentKeys(effects[1..])
  }

  lemma {:induction false} SentKeysAppend(a: seq<Effect>, b: seq<Effect>)
    ensures SentKeys(a + b) == SentKeys(a) + SentKeys(b)
  {
    if a == [] {
      assert a + b == b;
    } else {
      var head := if a[0].Sent? then [a[0].message.key] else [];
      assert (a + b)[0] == a[0] && (a + b)[1..] == a[1..] + b;
      assert SentKeys(a + b) == head + SentKeys(a[1..] + b);
      SentKeysAppend(a[1..], b);
      assert head + (SentKeys(a[1..]) + SentKeys(b)) == (head + SentKeys(a[1..])) + SentKeys(b);
    }
  }

  /** Effects without a message send no key. */
  lemma {:induction false} NoSentKeys(effects: seq<Effect>)
    requires forall i :: 0 <= i < |effects| ==> !effects[i].Sent?
    ensures SentKeys(effects) == []
  {
    if effects != [] {
      assert !effects[0].Sent?;
      assert forall i :: 0 <= i < |effects[1..]| ==> !effects[1..][i].Sent? by {
        forall i | 0 <= i < |effects[1..]| ensures !effects[1..][i].Sent? {
          assert effects[1..][i] == effects[i + 1];
        }
      }
      NoSentKeys(effects[1..]);
    }
  }

  /** The keys `Publish` sends, in order: the year event when the year changed, then the loaded event unless the year event failed. */
  lemma {:induction false} PublishOrder(current: DbState, previous: DbState, previousBytes: Option<Bytes>,
                                        store: StoreView, failures: map<string, string>)
    ensures var yearChanged := current.educationYear != previous.educationYear;
      SentKeys(Publish(current, previous, previousBytes, store, failures).effects)
        == (if yearChanged then [CurrentYearEventName] else [])
         + (if yearChanged && CurrentYearEventName in failures then [] else [SecondaryDbLoadedEventName])
  {
    var yearSent := if current.educationYear != previous.educationYear then [Sent(YearMessage(current.educationYear))] else [];
    var loaded := [Sent(LoadedMessage(current.actualDatetime, previous.actualDatetime, current.educationYear))];
    var rollback := [StoreSet(previousBytes)];
    if yearSent != [] && CurrentYearEventName in failures {
      SentKeysAppend(yearSent, rollback);
    } else if SecondaryDbLoadedEventName in failures {
      SentKeysAppend(yearSent + loaded, rollback);
      SentKeysAppend(yearSent, loaded);
    } else {
      SentKeysAppend(yearSent, loaded);
    }
  }

  /**
    After a good write, the messages go out in a fixed order: the year event
    when the year changed, then the loaded event unless the year event
    failed.
   */
  lemma {:induction false} CyclePublishOrder(reading: Reading, store: StoreView, failures: map<string, string>)
    requires Sound(reading)
    requires Changed(reading, store) && ScriptAt(store.setScript, store.setCalls).None?
    ensures var current := reading.state.value;
      var yearChanged := current.educationYear != DecodePrevious(store.slot).value.educationYear;
      SentKeys(Cycle(reading, store, failures).effects)
        == (if yearChanged then [CurrentYearEventName] else [])
         + (if yearChanged && CurrentYearEventName in failures then [] else [SecondaryDbLoadedEventName])
  {
    var current := reading.state.value;
    var previous := DecodePrevious(store.slot).value;
    var newBytes := Some(Serialize(current));
    CycleWritten(reading, store, failures);
    WrittenSentKeys(reading.calls, newBytes, Publish(current, previous, store.slot, AfterSet(store, newBytes), failures).effects);
    PublishOrder(current, previous, store.slot, AfterSet(store, newBytes), failures);
  }

  /** The reads and the write send nothing: the keys sent are those of what follows them. */
  lemma WrittenSentKeys(calls: seq<DbCall>, newBytes: Option<Bytes>, rest: seq<Effect>)
    ensures SentKeys(CallEffects(calls) + [StoreGet, StoreSet(newBytes)] + rest) == SentKeys(rest)
  {
    var got := CallEffects(calls) + [StoreGet, StoreSet(newBytes)];
    SentKeysAppend(got, rest);
    forall i | 0 <= i < |got| ensures !got[i].Sent? {
      if i < |calls| {
        assert got[i] == Called(calls[i]);
      }
    }
    NoSentKeys(got);
  }

  /** A send that the poll attempts fails: the year event when the year changed, or the loaded event. */
  predicate PublishFails(reading: Reading, store: StoreView, failures: map<string, string>)
    requires Sound(reading)
    requires Changed(reading, store)
  {
    var yearChanged := reading.state.value.educationYear != DecodePrevious(store.slot).value.educationYear;
    (yearChanged && CurrentYearEventName in failures) || SecondaryDbLoadedEventName in failures
  }

  /**
    A failed send returns an error whatever the write-back does, ends with
    the write-back of `previousBytes`, and reports a failed loaded event
    with its own text.
   */
  lemma PublishFailureRollsBack(current: DbState, previous: DbState, previousBytes: Option<Bytes>,
                                store: StoreView, failures: map<string, string>)
    requires var yearChanged := current.educationYear != previous.educationYear;
      (yearChanged && CurrentYearEventName in failures) || SecondaryDbLoadedEventName in failures
    ensures var p := Publish(current, previous, previousBytes, store, failures);
      var yearChanged := current.educationYear != previous.educationYear;
      && p.err.Some?
      && (!(yearChanged && CurrentYearEventName in failures) ==>
            p.err == Some("Failed to send Secondary DB loaded Event to Kafka: " + failures[SecondaryDbLoadedEventName]))
      && |p.effects| > 0
      && p.effects[|p.effects| - 1] == StoreSet(previousBytes)
      && p.store == AfterSet(store, previousBytes)
  {
  }

  /**
    After a good write, a failed send returns an error, whatever the
    write-back does, and writes back exactly the bytes `Get` returned, as
    the last effect; a failed loaded event is reported with its own text.
   */
  lemma CyclePublishFailureRollsBack(reading: Reading, store: StoreView, failures: map<string, string>)
    requires Sound(reading)
    requires Changed(reading, store) && ScriptAt(store.setScript, store.setCalls).None?
    requires PublishFails(reading, store, failures)
    ensures var c := Cycle(reading, store, failures);
      var yearChanged := reading.state.value.educationYear != DecodePrevious(store.slot).value.educationYear;
      && c.err.Some?
      && (!(yearChanged && CurrentYearEventName in failures) ==>
            c.err == Some("Failed to send Secondary DB loaded Event to Kafka: " + failures[SecondaryDbLoadedEventName]))
      && |c.effects| > 0
      && c.effects[|c.effects| - 1] == StoreSet(store.slot)
      && (ScriptAt(store.setScript, store.setCalls + 1).None? ==> c.store.slot == store.slot)
  {
    var current := reading.state.value;
    var previous := DecodePrevious(store.slot).value;
    var newBytes := Some(Serialize(current));
    CycleWritten(reading, store, failures);
    WrittenRollback(reading.calls, newBytes, current, previous, store, failures);
  }

  /**
    After the reads and the write of `newBytes`, a failed send ends with the
    write-back of the bytes read, which restores the slot when it succeeds.
   */
  lemma WrittenRollback(calls: seq<DbCall>, newBytes: Option<Bytes>, current: DbState, previous: DbState,
                        store: StoreView, failures: map<string, string>)
    requires ScriptAt(store.setScript, store.setCalls).None?
    requires var yearChanged := current.educationYear != previous.educationYear;
      (yearChanged && CurrentYearEventName in failures) || SecondaryDbLoadedEventName in failures
    ensures var p := Publish(current, previous, store.slot, AfterSet(store, newBytes), failures);
      var e := CallEffects(calls) + [StoreGet, StoreSet(newBytes)] + p.effects;
      var yearChanged := current.educationYear != previous.educationYear;
      && p.err.Some?
      && (!(yearChanged && CurrentYearEventName in failures) ==>
            p.err == Some("Failed to send Secondary DB loaded Event to Kafka: " + failures[SecondaryDbLoadedEventName]))
      && |e| > 0
      && e[|e| - 1] == StoreSet(store.slot)
      && p.store == AfterSet(AfterSet(store, newBytes), store.slot)
      && p.store.getFailure == store.getFailure
      && p.store.setCalls == store.setCalls + 2
      && (ScriptAt(store.setScript, store.setCalls + 1).None? ==> p.store.slot == store.slot)
  {
    var p := Publish(current, previous, store.slot, AfterSet(store, newBytes), failures);
    PublishFailureRollsBack(current, previous, store.slot, AfterSet(store, newBytes), failures);
    var e := CallEffects(calls) + [StoreGet, StoreSet(newBytes)] + p.effects;
    assert e[|e| - 1] == p.effects[|p.effects| - 1];
  }

  /** A failed year event stops the poll: the loaded event is never attempted. */
  lemma CycleYearFailureSkipsLoaded(reading: Reading, store: StoreView, failures: map<string, string>)
    requires Sound(reading)
    requires Changed(reading, store) && ScriptAt(store.setScript, store.setCalls).None?
    requires CurrentYearEventName in failures
    requires reading.state.value.educationYear != DecodePrevious(store.slot).value.educationYear
    ensures var c := Cycle(reading, store, failures);
      && c.err == Some("Failed to send Current year event to Kafka: " + failures[CurrentYearEventName])
      && (forall i :: 0 <= i < |c.effects| && c.effects[i].Sent? ==> c.effects[i].message.key != SecondaryDbLoadedEventName)
  {
    var current := reading.state.value;
    var newBytes := Some(Serialize(current));
    CycleWritten(reading, store, failures);
    WrittenYearFailure(reading.calls, newBytes, current, DecodePrevious(store.slot).value, store.slot,
                       AfterSet(store, newBytes), failures);
  }

  /** After the reads and the write, a failed year send is the last message and carries the year key. */
  lemma WrittenYearFailure(calls: seq<DbCall>, newBytes: Option<Bytes>, current: DbState, previous: DbState,
                           previousBytes: Option<Bytes>, store: StoreView, failures: map<string, string>)
    requires current.educationYear != previous.educationYear && CurrentYearEventName in failures
    ensures var p := Publish(current, previous, previousBytes, store, failures);
      var e := CallEffects(calls) + [StoreGet, StoreSet(newBytes)] + p.effects;
      && p.err == Some("Failed to send Current year event to Kafka: " + failures[CurrentYearEventName])
      && (forall i :: 0 <= i < |e| && e[i].Sent? ==> e[i].message.key != SecondaryDbLoadedEventName)
  {
    var p := Publish(current, previous, previousBytes, store, failures);
    var e := CallEffects(calls) + [StoreGet, StoreSet(newBytes)] + p.effects;
    assert p.effects == [Sent(YearMessage(current.educationYear)), StoreSet(previousBytes)];
    forall i | 0 <= i < |e| ensures e[i].Sent? ==> e[i].message.key != SecondaryDbLoadedEventName {
      if i < |calls| {
        assert e[i] == Called(calls[i]);
      }
    }
  }

  /** A poll that publishes everything leaves the new snapshot in the store and returns no error. */
  lemma CycleSuccess(reading: Reading, store: StoreView, failures: map<string, string>)
    requires Sound(reading)
    requires Changed(reading, store) && ScriptAt(store.setScript, store.setCalls).None?
    requires CurrentYearEventName !in failures && SecondaryDbLoadedEventName !in failures
    ensures var c := Cycle(reading, store, failures);
      var current := reading.state.value;
      var previous := DecodePrevious(store.slot).value;
      && c.err.None?
      && c.store.slot == Some(Serialize(current))
      && Sent(LoadedMessage(current.actualDatetime, previous.actualDatetime, current.educationYear)) in c.effects
  {
    var current := reading.state.value;
    var previous := DecodePrevious(store.slot).value;
    var c := Cycle(reading, store, failures);
    CycleWritten(reading, store, failures);
    assert c.effects[|c.effects| - 1] == Sent(LoadedMessage(current.actualDatetime, previous.actualDatetime, current.educationYear));
  }

  /** Whether a reading counts as a change depends only on the slot and on whether `Get` fails. */
  lemma ChangedOnSameSlot(reading: Reading, store: StoreView, store': StoreView)
    requires Sound(reading)
    requires store'.slot == store.slot && store'.getFailure == store.getFailure
    ensures Changed(reading, store') == Changed(reading, store)
  {
  }

  /** What `Publish` does and returns does not depend on the store it is given. */
  lemma PublishReplay(current: DbState, previous: DbState, previousBytes: Option<Bytes>,
                      store: StoreView, store': StoreView, failures: map<string, string>)
    ensures Publish(current, previous, previousBytes, store, failures).effects
         == Publish(current, previous, previousBytes, store', failures).effects
    ensures Publish(current, previous, previousBytes, store, failures).err
         == Publish(current, previous, previousBytes, store', failures).err
  {
  }

  /**
    A poll whose publish failed and whose write-back succeeded leaves the
    store as it found it, so polling again with the same data and a store
    that accepts writes attempts the same writes and publishes again.
   */
  lemma CycleRetryAfterRollback(reading: Reading, store: StoreView, failures: map<string, string>)
    requires Sound(reading)
    requires Changed(reading, store) && ScriptAt(store.setScript, store.setCalls).None?
    requires PublishFails(reading, store, failures)
    requires ScriptAt(store.setScript, store.setCalls + 1).None?
    requires ScriptAt(store.setScript, store.setCalls + 2).None?
    ensures var c := Cycle(reading, store, failures);
      var again := Cycle(reading, c.store, failures);
      && c.store.slot == store.slot
      && again.effects == c.effects
      && again.err == c.err
  {
    var current := reading.state.value;
    var previous := DecodePrevious(store.slot).value;
    var newBytes := Some(Serialize(current));
    var c := Cycle(reading, store, failures);
    CycleWritten(reading, store, failures);
    WrittenRollback(reading.calls, newBytes, current, previous, store, failures);
    ChangedOnSameSlot(reading, store, c.store);
    CycleWritten(reading, c.store, failures);
    PublishReplay(current, previous, store.slot, AfterSet(store, newBytes), AfterSet(c.store, newBytes), failures);
  }

  // ------------------------------------------------------------------ end-to-end example

  /** A database holding a datetime in the Firebird layout and a registration date reads as that snapshot. */
  lemma {:induction false} ReadFormatted(t: DateTime, registered: DateTime)
    requires Valid(t) && 0 <= t.year < 10000
    requires Valid(registered) && 0 <= registered.year < 10000
    requires EducationYear(registered.year, registered.month, RegistrationCutoverMonth) >= EducationYearFloor
    ensures var db := SecondaryDb(None, Value(FormatFirebird(t)), Value(FormatDate(registered)));
      MakeDbState(db).state == Success(DbState(t, EducationYear(registered.year, registered.month, RegistrationCutoverMonth)))
      && MakeDbState(db).calls == [Ping, QueryLastDatetime, QueryFirstRegDate]
  {
    var db := SecondaryDb(None, Value(FormatFirebird(t)), Value(FormatDate(registered)));
    var year := EducationYear(registered.year, registered.month, RegistrationCutoverMonth);
    DatetimeOfFormatted(t, db.firstRegDate);
    CurrentYearOfFormattedDate(registered);
    assert GetCurrentYear(db.firstRegDate) == Success(year);
    MakeDbStateOf(db, t, year);
  }

  /**
    A database that fails its probe is reported before the registration
    date is read, so a registration row too short to slice does no harm.
   */
  lemma FailedPingWithShortRow(store: StoreView, failures: map<string, string>)
    ensures var db := SecondaryDb(Some("ping error"), Value(""), Value(""));
      var e := "Failed to get last datetime from DB: " + "ping error";
      && !Sliceable(db.firstRegDate)
      && MakeDbState(db) == Reading(Failure(e), [Ping])
      && Cycle(MakeDbState(db), store, failures) == CycleOutcome([Called(Ping)], Some("Failed to get DB state: " + e), store)
  {
    assert CallEffects([Ping]) == [Called(Ping)];
  }

  /**
    The repository's year-change scenario: the store holds (2022-06-01
    04:00, 2021) and the database reads (2023-09-15 04:00, 2023): the new
    snapshot is written, then the year event for 2023, then the loaded
    event.
   */
  lemma YearChangeCycle(reading: Reading)
    requires reading == Reading(Success(DbState(DateTime(2023, 9, 15, 4, 0, 0), 2023)),
                                [Ping, QueryLastDatetime, QueryFirstRegDate])
    ensures var previous := DbState(DateTime(2022, 6, 1, 4, 0, 0), 2021);
      var current := reading.state.value;
      var c := Cycle(reading, StoreView(Some(Serialize(previous)), None, [], 0), map[]);
      && c.err.None?
      && c.effects == [Called(Ping), Called(QueryLastDatetime), Called(QueryFirstRegDate), StoreGet,
                       StoreSet(Some(Serialize(current))),
                       Sent(Message(CurrentYearEventName, CurrentYear(2023))),
                       Sent(Message(SecondaryDbLoadedEventName,
                         SecondaryDbLoaded(current.actualDatetime, previous.actualDatetime, 2023)))]
      && c.store.slot == Some(Serialize(current))
  {
    var previous := DbState(DateTime(2022, 6, 1, 4, 0, 0), 2021);
    SerializeRoundTrip(previous);
    DifferentYearsNeverEqual(previous, reading.state.value);
  }

  /** The same scenario, starting from the rows the database returns. */
  lemma YearChangeScenario()
    ensures var current := DateTime(2023, 9, 15, 4, 0, 0);
      var db := SecondaryDb(None, Value(FormatFirebird(current)), Value(FormatDate(current)));
      Sliceable(db.firstRegDate)
      && MakeDbState(db) == Reading(Success(DbState(current, 2023)), [Ping, QueryLastDatetime, QueryFirstRegDate])
  {
    var current := DateTime(2023, 9, 15, 4, 0, 0);
    ReadFormatted(current, current);
  }
}
