/** The in-memory cache with per-entry lifetimes: expired entries are dropped when a read meets them. */
module MemoryCache {
  import opened Prelude

  /** Times are milliseconds, lifetimes seconds. A stored value may be `null`. */
  datatype Entry<T> = Entry(value: Option<T>, storedAt: real, expiresAt: Option<real>, revision: Option<string>)

  datatype ReadResult<T> = ReadResult(value: Option<T>, storedAt: real, expiresAt: Option<real>, ageMs: real, stale: bool, revision: Option<string>)

  /** One call; `now` is the clock reading it uses. */
  datatype Op<T> =
    | Set(key: string, value: Option<T>, ttlSeconds: Option<real>, revision: Option<string>, now: real)
    | Get(key: string, now: real)
    | Has(key: string, now: real)
    | GetWithMetadata(key: string, now: real)

  datatype Answer<T> = Done | Got(found: Option<T>) | Held(yes: bool) | Read(result: Option<ReadResult<T>>)

  /** An absent or zero lifetime never ends. */
  function ExpiryOf(ttlSeconds: Option<real>, now: real): Option<real> {
    if ttlSeconds.Some? && ttlSeconds.value != 0.0 then Some(now + ttlSeconds.value * 1000.0) else None
  }

  /** `get` keeps an entry at the very instant it expires ... */
  predicate Gone<T>(e: Entry<T>, now: real) {
    e.expiresAt.Some? && now > e.expiresAt.value
  }

  /** ... and `getWithMetadata` does not. */
  predicate GoneForMetadata<T>(e: Entry<T>, now: real) {
    e.expiresAt.Some? && now >= e.expiresAt.value
  }

  function CreateCacheReadResult<T>(e: Entry<T>, now: real): ReadResult<T> {
    ReadResult(e.value, e.storedAt, e.expiresAt, if now - e.storedAt > 0.0 then now - e.storedAt else 0.0,
               e.expiresAt.Some? && now >= e.expiresAt.value, e.revision)
  }

  function Step<T>(store: map<string, Entry<T>>, op: Op<T>): (map<string, Entry<T>>, Answer<T>) {
    match op
    case Set(key, value, ttl, revision, now) => (store[key := Entry(value, now, ExpiryOf(ttl, now), revision)], Done)
    case Get(key, now) =>
      if key !in store then (store, Got(None))
      else if Gone(store[key], now) then (store - {key}, Got(None))
      else (store, Got(store[key].value))
    case Has(key, now) =>
      if key !in store then (store, Held(false))
      else if Gone(store[key], now) then (store - {key}, Held(false))
      else (store, Held(store[key].value.Some?))
    case GetWithMetadata(key, now) =>
      if key !in store then (store, Read(None))
      else if GoneForMetadata(store[key], now) then (store - {key}, Read(None))
      else (store, Read(Some(CreateCacheReadResult(store[key], now))))
  }

  function Run<T>(ops: seq<Op<T>>): map<string, Entry<T>> {
    if ops == [] then map[] else Step(Run(ops[..|ops| - 1]), ops[|ops| - 1]).0
  }

  class MemoryCacheProvider<T> {
    var store: map<string, Entry<T>>

    constructor ()
      ensures store == Run<T>([])
    {
      store := map[];
    }

    method Get(key: string, now: real) returns (found: Option<T>)
      modifies this
      ensures (store, Got(found)) == Step(old(store), Op.Get(key, now))
    {
      if key !in store {
        return None;
      }
      var entry := store[key];
      if entry.expiresAt.Some? && now > entry.expiresAt.value {
        store := store - {key};
        return None;
      }
      return entry.value;
    }

    method Has(key: string, now: real) returns (yes: bool)
      modifies this
      ensures (store, Held(yes)) == Step(old(store), Op<T>.Has(key, now))
    {
      var found := Get(key, now);
      yes := found.Some?;
    }

    method SetWithMetadata(key: string, value: Option<T>, ttlSeconds: Option<real>, revision: Option<string>, now: real)
      modifies this
      ensures (store, Done) == Step(old(store), Op.Set(key, value, ttlSeconds, revision, now))
    {
      var expiresAt := if ttlSeconds.Some? && ttlSeconds.value != 0.0 then Some(now + ttlSeconds.value * 1000.0) else None;
      store := store[key := Entry(value, now, expiresAt, revision)];
    }

    method Set(key: string, value: Option<T>, ttlSeconds: Option<real>, now: real)
      modifies this
      ensures (store, Done) == Step(old(store), Op.Set(key, value, ttlSeconds, None, now))
    {
      SetWithMetadata(key, value, ttlSeconds, None, now);
    }

    method GetWithMetadata(key: string, now: real) returns (result: Option<ReadResult<T>>)
      modifies this
      ensures (store, Read(result)) == Step(old(store), Op.GetWithMetadata(key, now))
    {
      if key !in store {
        return None;
      }
      var entry := store[key];
      if entry.expiresAt.Some? && now >= entry.expiresAt.value {
        store := store - {key};
        return None;
      }
      return Some(CreateCacheReadResult(entry, now));
    }
  }

  // ----- the reference: a log of writes that forgets nothing -----

  /** The last write of a key in a history of calls. */
  function LastWrite<T>(ops: seq<Op<T>>, key: string): Option<Entry<T>> {
    if ops == [] then None
    else
      var op := ops[|ops| - 1];
      if op.Set? && op.key == key then Some(Entry(op.value, op.now, ExpiryOf(op.ttlSeconds, op.now), op.revision))
      else LastWrite(ops[..|ops| - 1], key)
  }

  /** What a log of all writes answers. */
  function Expected<T>(ops: seq<Op<T>>, op: Op<T>): Answer<T> {
    var last := LastWrite(ops, op.key);
    match op
    case Set(_, _, _, _, _) => Done
    case Get(_, now) => Got(if last.Some? && !Gone(last.value, now) then last.value.value else None)
    case Has(_, now) => Held(last.Some? && !Gone(last.value, now) && last.value.value.Some?)
    case GetWithMetadata(_, now) =>
      Read(if last.Some? && !GoneForMetadata(last.value, now) then Some(CreateCacheReadResult(last.value, now)) else None)
  }

  /** Since the last write of `key`, its metadata was read at the very instant it expired. */
  predicate ReadAtExpiry<T>(ops: seq<Op<T>>, key: string): (r: bool)
    ensures r ==> LastWrite(ops, key).Some? && LastWrite(ops, key).value.expiresAt.Some?
  {
    if ops == [] then false
    else
      var init, op := ops[..|ops| - 1], ops[|ops| - 1];
      if op.key != key then ReadAtExpiry(init, key)
      else if op.Set? then false
      else
        || ReadAtExpiry(init, key)
        || (op.GetWithMetadata? && LastWrite(init, key).Some? && LastWrite(init, key).value.expiresAt == Some(op.now))
  }

  /** The clock never runs backwards. */
  predicate Timed<T>(ops: seq<Op<T>>) {
    forall i, j :: 0 <= i < j < |ops| ==> ops[i].now <= ops[j].now
  }

  /** The store holds the last write of a key, or the entry has run out by the last call. */
  ghost predicate Tracks<T>(ops: seq<Op<T>>, key: string) {
    var store, last := Run(ops), LastWrite(ops, key);
    if key in store then last == Some(store[key]) && !ReadAtExpiry(ops, key)
    else
      last.Some? ==>
        && last.value.expiresAt.Some? && ops != []
        && (ops[|ops| - 1].now > last.value.expiresAt.value
            || (ops[|ops| - 1].now == last.value.expiresAt.value && ReadAtExpiry(ops, key)))
  }

  lemma {:induction false} RunTracks<T>(ops: seq<Op<T>>, key: string)
    requires Timed(ops)
    ensures Tracks(ops, key)
  {
    if ops != [] {
      var init := ops[..|ops| - 1];
      assert forall i :: 0 <= i < |init| ==> init[i] == ops[i];
      RunTracks(init, key);
    }
  }

  /** Over every run of `set`, `get` and `has`, dropping entries lazily is invisible. */
  lemma {:induction false} LazyEvictionInvisible<T>(ops: seq<Op<T>>, op: Op<T>)
    requires Timed(ops + [op]) && forall i :: 0 <= i < |ops| ==> !ops[i].GetWithMetadata?
    ensures Step(Run(ops), op).1 == Expected(ops, op)
  {
    NeverReadAtExpiry(ops, op.key);
    VisibleExactly(ops, op);
  }

  lemma {:induction false} NeverReadAtExpiry<T>(ops: seq<Op<T>>, key: string)
    requires forall i :: 0 <= i < |ops| ==> !ops[i].GetWithMetadata?
    ensures !ReadAtExpiry(ops, key)
  {
    if ops != [] {
      NeverReadAtExpiry(ops[..|ops| - 1], key);
    }
  }

  /**
   * With metadata reads in the run as well, an answer differs from the log's exactly for `get` and `has` at the
   * instant an entry that is not `null` expires, once its metadata was read at that same instant.
   */
  lemma {:induction false} VisibleExactly<T>(ops: seq<Op<T>>, op: Op<T>)
    requires Timed(ops + [op])
    ensures Step(Run(ops), op).1 == Expected(ops, op) <==>
            !((op.Get? || op.Has?) && ReadAtExpiry(ops, op.key)
              && LastWrite(ops, op.key).value.expiresAt == Some(op.now) && LastWrite(ops, op.key).value.value.Some?)
  {
    var all := ops + [op];
    assert forall i :: 0 <= i < |ops| ==> all[i] == ops[i];
    assert all[|ops|] == op;
    if ops != [] {
      assert all[|ops| - 1].now <= all[|ops|].now;
    }
    RunTracks(ops, op.key);
  }

  /** The same key read three times at the instant it expires: found, then not found, then no longer found by `get`. */
  lemma {:induction false} MetadataReadEvicts(value: int)
    ensures var ops := [Set("k", Some(value), Some(1.0), None, 0.0), Get("k", 1000.0), GetWithMetadata("k", 1000.0)];
            && Step(Run(ops[..1]), ops[1]).1 == Got(Some(value))
            && Step(Run(ops[..2]), ops[2]).1 == Read(None)
            && Step(Run(ops), Get("k", 1000.0)).1 == Got(None)
  {
    var ops := [Set("k", Some(value), Some(1.0), None, 0.0), Get("k", 1000.0), GetWithMetadata("k", 1000.0)];
    assert ops[..1] == [ops[0]] && ops[..1][..0] == [];
    assert ops[..2][..1] == ops[..1];
    assert ops[..3] == ops && ops[..|ops| - 1] == ops[..2];
    assert Run(ops[..1]) == map["k" := Entry(Some(value), 0.0, Some(1000.0), None)];
    assert Run(ops[..2]) == Run(ops[..1]);
  }

  /** A returned entry never carries the stale mark, and its age is the time since its write. */
  lemma {:induction false} MetadataNeverStale<T>(ops: seq<Op<T>>, key: string, now: real)
    requires Timed(ops + [GetWithMetadata(key, now)])
    ensures var r := Step(Run(ops), GetWithMetadata(key, now)).1;
            r.result.Some? ==> !r.result.value.stale && r.result.value.ageMs == now - r.result.value.storedAt
  {
    var all := ops + [GetWithMetadata(key, now)];
    assert forall i :: 0 <= i < |ops| ==> all[i] == ops[i];
    assert all[|ops|].now == now;
    assert forall i :: 0 <= i < |ops| ==> all[i].now <= all[|ops|].now;
    VisibleExactly(ops, GetWithMetadata(key, now));
    WrittenBefore(ops, key, now);
  }

  lemma {:induction false} WrittenBefore<T>(ops: seq<Op<T>>, key: string, now: real)
    requires forall i :: 0 <= i < |ops| ==> ops[i].now <= now
    ensures LastWrite(ops, key).Some? ==> LastWrite(ops, key).value.storedAt <= now
  {
    if ops != [] {
      WrittenBefore(ops[..|ops| - 1], key, now);
    }
  }

  /** A stored `null` reads as absent through `get` and `has`, and only its metadata tells otherwise. */
  lemma {:induction false} NullReadsAsAbsent<T>(ops: seq<Op<T>>, key: string, now: real)
    requires Timed(ops + [GetWithMetadata(key, now)])
    requires LastWrite(ops, key).Some? && LastWrite(ops, key).value.value.None?
    ensures Step(Run(ops), Get(key, now)).1 == Got(None) && Step(Run(ops), Has(key, now)).1 == Held(false)
    ensures Step(Run(ops), GetWithMetadata(key, now)).1.result.Some? <==> !GoneForMetadata(LastWrite(ops, key).value, now)
  {
    var all := ops + [GetWithMetadata(key, now)];
    assert forall i :: 0 <= i < |ops| ==> all[i] == ops[i];
    RunTracks(ops, key);
    VisibleExactly(ops, GetWithMetadata(key, now));
  }

  lemma {:induction false} LastWriteAt<T>(ops: seq<Op<T>>, key: string, k: nat)
    requires k < |ops| && ops[k].Set? && ops[k].key == key
    requires forall j :: k < j < |ops| ==> !(ops[j].Set? && ops[j].key == key)
    ensures LastWrite(ops, key) == Some(Entry(ops[k].value, ops[k].now, ExpiryOf(ops[k].ttlSeconds, ops[k].now), ops[k].revision))
  {
    if k < |ops| - 1 {
      LastWriteAt(ops[..|ops| - 1], key, k);
    }
  }

  /** What a read at `op` answers where `w` is the last write of its key. */
  function Told<T>(w: Op<T>, op: Op<T>): Answer<T>
    requires w.Set?
  {
    var ends := w.ttlSeconds.Some? && w.ttlSeconds.value != 0.0;
    var end := if ends then w.now + w.ttlSeconds.value * 1000.0 else 0.0;
    match op
    case Set(_, _, _, _, _) => Done
    case Get(_, now) => Got(if ends && now > end then None else w.value)
    case Has(_, now) => Held(w.value.Some? && !(ends && now > end))
    case GetWithMetadata(_, now) =>
      Read(if ends && now >= end then None
           else Some(ReadResult(w.value, w.now, if ends then Some(end) else None, now - w.now, false, w.revision)))
  }

  lemma {:induction false} ToldIsExpected<T>(ops: seq<Op<T>>, op: Op<T>, w: Op<T>)
    requires w.Set? && w.now <= op.now
    requires LastWrite(ops, op.key) == Some(Entry(w.value, w.now, ExpiryOf(w.ttlSeconds, w.now), w.revision))
    ensures Expected(ops, op) == Told(w, op)
  {
    hide LastWrite;
  }

  /**
   * What a read answers, said of the last write of its key alone: an absent or zero lifetime never ends; otherwise the value
   * is there up to the instant it ends, for metadata only before it. (The exception is that of `VisibleExactly`.)
   */
  lemma {:induction false} AnswersExactly<T>(ops: seq<Op<T>>, op: Op<T>, k: nat)
    requires Timed(ops + [op]) && k < |ops| && ops[k].Set? && ops[k].key == op.key
    requires forall j :: k < j < |ops| ==> !(ops[j].Set? && ops[j].key == op.key)
    requires op.GetWithMetadata? || !ReadAtExpiry(ops, op.key)
    ensures Step(Run(ops), op).1 == Told(ops[k], op)
  {
    hide Step, ReadAtExpiry, Run, LastWrite, Expected, Told;
    var all := ops + [op];
    assert all[k] == ops[k] && all[|ops|] == op && all[k].now <= all[|ops|].now;
    LastWriteAt(ops, op.key, k);
    ToldIsExpected(ops, op, ops[k]);
    VisibleExactly(ops, op);
  }

  /** A key that was never written is found by no read. */
  lemma {:induction false} NeverWritten<T>(ops: seq<Op<T>>, op: Op<T>)
    requires forall j :: 0 <= j < |ops| ==> !(ops[j].Set? && ops[j].key == op.key)
    ensures op.key !in Run(ops)
    ensures op.Get? ==> Step(Run(ops), op).1 == Got(None)
    ensures op.Has? ==> Step(Run(ops), op).1 == Held(false)
    ensures op.GetWithMetadata? ==> Step(Run(ops), op).1 == Read(None)
  {
    if ops != [] {
      NeverWritten(ops[..|ops| - 1], op);
    }
  }
}
