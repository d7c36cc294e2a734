/**
  The collaborators the watcher talks to, replaced by scripted stand-ins:

  - the secondary Firebird database, as the rows its two queries return;
  - the persistent slot of the external `fileStorage` package, with its
    `Get`/`Set` interface and a scripted outcome for each `Set`;
  - the Kafka writer, with a scripted failure per message key.

  Every call the watcher makes on them is appended to one shared `Journal`,
  so the order of store writes and bus messages is observable.
 */
module World {
  import opened Wrappers
  import opened Calendar

  /** The serialized form of a state, as held by the persistent slot. */
  type Bytes = seq<int>

  /** What `QueryRow(...).Scan(&s)` yields for one query. */
  datatype Row =
    | Value(text: string)        // a row whose column scanned into `text`
    | QueryFailed(message: string) // `rows.Err()` is non-nil
    | ScanFailed(message: string)  // `Scan` failed, e.g. on an empty result

  /** The error text `Scan` reports on an empty result set. */
  const NoRowsMessage := "sql: no rows in result set"

  /** The scripted database: the liveness probe's error and the two query results. */
  datatype SecondaryDb = SecondaryDb(ping: Option<string>, lastDatetime: Row, firstRegDate: Row)

  datatype DbCall = Ping | QueryLastDatetime | QueryFirstRegDate

  /** The payloads of the two meta events. */
  datatype Event =
    | CurrentYear(year: int)
    | SecondaryDbLoaded(current: DateTime, previous: DateTime, year: int)

  /** A Kafka message: the event name as key and the event as value. */
  datatype Message = Message(key: string, value: Event)

  /** One interaction of the watcher with the outside world. */
  datatype Effect =
    | Called(call: DbCall)
    | StoreGet
    | StoreSet(bytes: Option<Bytes>)
    | Sent(message: Message)

  /** The single ordered record of every effect. */
  class Journal {
    var effects: seq<Effect>

    constructor ()
      ensures effects == []
    {
      effects := [];
    }

    method Record(e: seq<Effect>)
      modifies this
      ensures effects == old(effects) + e
    {
      effects := effects + e;
    }
  }

  /** The outcome scripted for the `k`-th call; calls past the script succeed. */
  function ScriptAt(script: seq<Option<string>>, k: nat): Option<string> {
    if k < |script| then script[k] else None
  }

  /** The state of a `Store` that decides what its next calls do. */
  datatype StoreView = StoreView(
    slot: Option<Bytes>,
    getFailure: Option<string>,
    setScript: seq<Option<string>>,
    setCalls: nat)

  /** The store after one `Set(bytes)`: the slot takes the bytes unless the scripted outcome is an error. */
  function AfterSet(v: StoreView, bytes: Option<Bytes>): (r: StoreView)
    ensures r.setCalls == v.setCalls + 1 && r.setScript == v.setScript && r.getFailure == v.getFailure
    ensures r.slot == (if ScriptAt(v.setScript, v.setCalls).None? then bytes else v.slot)
  {
    v.(slot := if ScriptAt(v.setScript, v.setCalls).None? then bytes else v.slot, setCalls := v.setCalls + 1)
  }

  /** The persistent slot behind the `fileStorage.Interface` that the orchestrator uses. */
  class Store {
    const journal: Journal
    var slot: Option<Bytes>              // None: the slot holds no bytes (nil)
    var getFailure: Option<string>       // the error `Get` reports, if any
    var setScript: seq<Option<string>>   // the error of each successive `Set`
    var setCalls: nat                    // `Set` calls made so far

    constructor (journal: Journal, slot: Option<Bytes>, getFailure: Option<string>, setScript: seq<Option<string>>)
      ensures this.journal == journal && View() == StoreView(slot, getFailure, setScript, 0)
    {
      this.journal := journal;
      this.slot := slot;
      this.getFailure := getFailure;
      this.setScript := setScript;
      this.setCalls := 0;
    }

    function View(): StoreView
      reads this
    {
      StoreView(slot, getFailure, setScript, setCalls)
    }

    /** `Get() ([]byte, error)`: the slot's bytes, or the scripted error and no bytes. */
    method Get() returns (bytes: Option<Bytes>, err: Option<string>)
      modifies journal
      ensures journal.effects == old(journal.effects) + [StoreGet]
      ensures err == getFailure
      ensures bytes == if getFailure.Some? then None else slot
    {
      journal.Record([StoreGet]);
      err := getFailure;
      bytes := if getFailure.Some? then None else slot;
    }

    /** `Set([]byte) error`: records the attempt; overwrites the slot unless the script says it fails. */
    method Set(bytes: Option<Bytes>) returns (err: Option<string>)
      modifies this, journal
      ensures journal.effects == old(journal.effects) + [StoreSet(bytes)]
      ensures err == ScriptAt(old(setScript), old(setCalls))
      ensures View() == AfterSet(old(View()), bytes)
    {
      journal.Record([StoreSet(bytes)]);
      err := ScriptAt(setScript, setCalls);
      if err.None? {
        slot := bytes;
      }
      setCalls := setCalls + 1;
    }
  }

  /** The Kafka writer (`events.WriterInterface`). */
  class Writer {
    const journal: Journal
    const failures: map<string, string>  // key -> the error `WriteMessages` returns for it

    constructor (journal: Journal, failures: map<string, string>)
      ensures this.journal == journal && this.failures == failures
    {
      this.journal := journal;
      this.failures := failures;
    }

    /** `WriteMessages(ctx, m)`: one attempted message, failing as scripted for its key. */
    method WriteMessages(m: Message) returns (err: Option<string>)
      modifies journal
      ensures journal.effects == old(journal.effects) + [Sent(m)]
      ensures err == if m.key in failures then Some(failures[m.key]) else None
    {
      journal.Record([Sent(m)]);
      err := if m.key in failures then Some(failures[m.key]) else None;
    }
  }
}
