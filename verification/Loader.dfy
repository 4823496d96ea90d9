/** The batching loader of public users: callers, timers and fetches as goroutines whose critical sections
    interleave in any order.
    Source: internal/graph/dataloader. */
module Loader {
  import opened Wrappers

  type Key = nat

  datatype PublicUser = PublicUser(id: Key, name: string, firstName: string, lastName: string,
    nick: Option<string>, phone: Option<string>, avatarURL: Option<string>)

  /** keys in the order they were added; sleeping timers; end calls that are about to fetch, or to close done;
      the times done was closed; and the answer, where a nil error slice is None */
  datatype Batch = Batch(keys: seq<Key>, closing: bool, timers: nat, toFetch: nat, toClose: nat, closed: nat,
    data: seq<Option<PublicUser>>, errors: Option<seq<string>>)

  const NEW_BATCH := Batch([], false, 0, 0, 0, 0, [], None)

  /** What LoadThunk returns: a closure over a cached value, or over a batch and a position in it */
  datatype Thunk = Ready(value: Option<PublicUser>) | Waiting(batch: nat, pos: nat, key: Key)

  /** The loader, all batches ever made, and the waiting thunks that callers hold */
  datatype State = State(cache: map<Key, Option<PublicUser>>, batch: Option<nat>, batches: seq<Batch>,
    issued: set<Thunk>, panicked: bool)

  const INITIAL := State(map[], None, [], {}, false)

  ghost predicate WellFormed(s: State) {
    && (s.batch.Some? ==> s.batch.value < |s.batches|)
    && forall t :: t in s.issued ==> t.Waiting? && t.batch < |s.batches|
  }

  // ---------- The critical sections ----------

  /** The position of a key in a list, or the length of the list */
  function IndexOf(keys: seq<Key>, key: Key): (i: nat)
    ensures i <= |keys|
    ensures i < |keys| ==> keys[i] == key
    ensures forall j :: 0 <= j < i ==> keys[j] != key
  {
    if keys == [] || keys[0] == key then 0 else 1 + IndexOf(keys[1..], key)
  }

  /** A batch with one more key, whether a timer was started for it, and whether it reached its limit */
  function AddKey(b: Batch, key: Key, maxBatch: int): (r: (Batch, bool)) {
    var pos := |b.keys|;
    var added := b.(keys := b.keys + [key], timers := b.timers + (if pos == 0 then 1 else 0));
    if maxBatch != 0 && pos >= maxBatch - 1 && !b.closing then (added.(closing := true, toFetch := b.toFetch + 1), true)
    else (added, false)
  }

  ghost function LoadThunkStep(s: State, key: Key, maxBatch: int): (r: (State, Thunk))
    requires WellFormed(s)
    ensures WellFormed(r.0)
  {
    if key in s.cache then (s, Ready(s.cache[key]))
    else
      var b := if s.batch.Some? then s.batch.value else |s.batches|;
      var batches := if s.batch.Some? then s.batches else s.batches + [NEW_BATCH];
      var pos := IndexOf(batches[b].keys, key);
      var thunk := Waiting(b, pos, key);
      if pos < |batches[b].keys| then (s.(batch := Some(b), batches := batches, issued := s.issued + {thunk}), thunk)
      else
        var (added, full) := AddKey(batches[b], key, maxBatch);
        (s.(batch := if full then None else Some(b), batches := batches[b := added], issued := s.issued + {thunk}),
          thunk)
  }

  ghost function TimerStep(s: State, b: nat): (r: State)
    requires b < |s.batches| && s.batches[b].timers > 0
  {
    var batch := s.batches[b].(timers := s.batches[b].timers - 1);
    if batch.closing then s.(batches := s.batches[b := batch])
    else s.(batch := None, batches := s.batches[b := batch.(toFetch := batch.toFetch + 1)])
  }

  /** The first row for a key */
  function Lookup(rows: seq<PublicUser>, key: Key): Option<PublicUser> {
    if rows == [] then None else if rows[0].id == key then Some(rows[0]) else Lookup(rows[1..], key)
  }

  /** One model per key, in the order of the keys, or one error for all */
  function Fetched(keys: seq<Key>, outcome: Result<seq<PublicUser>>): (seq<Option<PublicUser>>, Option<seq<string>>) {
    match outcome
    case Err(message) => ([], Some([message]))
    case Ok(rows) => (seq(|keys|, i requires 0 <= i < |keys| => Lookup(rows, keys[i])), None)
  }

  ghost function FetchStep(s: State, b: nat, outcome: Result<seq<PublicUser>>): State
    requires b < |s.batches| && s.batches[b].toFetch > 0
  {
    var batch := s.batches[b];
    var (data, errors) := Fetched(batch.keys, outcome);
    s.(batches := s.batches[b := batch.(toFetch := batch.toFetch - 1, toClose := batch.toClose + 1, data := data,
      errors := errors)])
  }

  /** Closing a closed channel panics. */
  ghost function CloseStep(s: State, b: nat): State
    requires b < |s.batches| && s.batches[b].toClose > 0
  {
    var batch := s.batches[b];
    s.(batches := s.batches[b := batch.(toClose := batch.toClose - 1, closed := batch.closed + 1)],
       panicked := s.panicked || batch.closed > 0)
  }

  /** What a thunk returns once done is closed. A position beyond several errors, which would panic, does not
      occur: Answered leaves at most one error. */
  ghost function Answer(s: State, t: Thunk): (r: (Option<PublicUser>, Option<string>))
    requires t.Waiting? ==> t.batch < |s.batches|
  {
    match t
    case Ready(value) => (value, None)
    case Waiting(b, pos, key) =>
      var batch := s.batches[b];
      var data := if pos < |batch.data| then batch.data[pos] else None;
      var error := match batch.errors
                   case None => None
                   case Some(es) => if |es| == 1 then Some(es[0]) else if pos < |es| then Some(es[pos]) else None;
      (data, error)
  }

  ghost function ResolveStep(s: State, t: Thunk): State
    requires t.Waiting? && t.batch < |s.batches|
  {
    var (data, error) := Answer(s, t);
    if error.None? then s.(cache := s.cache[t.key := data]) else s
  }

  ghost function PrimeStep(s: State, key: Key, user: PublicUser): State {
    if key in s.cache then s else s.(cache := s.cache[key := Some(user)])
  }

  ghost function ClearStep(s: State, key: Key): State {
    s.(cache := s.cache - {key})
  }

  // ---------- Runs ----------

  datatype Event =
    | LoadThunk(key: Key)
    | Timer(b: nat)
    | Fetch(b: nat, outcome: Result<seq<PublicUser>>)
    | Close(b: nat)
    | Resolve(thunk: Thunk)
    | Prime(key: Key, user: PublicUser)
    | Clear(key: Key)

  /** Events that happen on their own, without a caller */
  predicate Internal(e: Event) {
    e.Timer? || e.Fetch? || e.Close?
  }

  ghost predicate Enabled(s: State, e: Event) {
    match e
    case LoadThunk(_) => true
    case Timer(b) => b < |s.batches| && s.batches[b].timers > 0
    case Fetch(b, _) => b < |s.batches| && s.batches[b].toFetch > 0
    case Close(b) => b < |s.batches| && s.batches[b].toClose > 0
    case Resolve(t) => t in s.issued && t.Waiting? && t.batch < |s.batches| && s.batches[t.batch].closed > 0
    case Prime(_, _) => true
    case Clear(_) => true
  }

  ghost function Next(s: State, e: Event, maxBatch: int): (r: State)
    requires WellFormed(s) && Enabled(s, e)
    ensures WellFormed(r)
  {
    match e
    case LoadThunk(key) => LoadThunkStep(s, key, maxBatch).0
    case Timer(b) => TimerStep(s, b)
    case Fetch(b, outcome) => FetchStep(s, b, outcome)
    case Close(b) => CloseStep(s, b)
    case Resolve(t) => ResolveStep(s, t)
    case Prime(key, user) => PrimeStep(s, key, user)
    case Clear(key) => ClearStep(s, key)
  }

  ghost predicate IsRun(s: State, es: seq<Event>, maxBatch: int)
    requires WellFormed(s)
    decreases |es|
  {
    es == [] || (Enabled(s, es[0]) && IsRun(Next(s, es[0], maxBatch), es[1..], maxBatch))
  }

  ghost function After(s: State, es: seq<Event>, maxBatch: int): (r: State)
    requires WellFormed(s) && IsRun(s, es, maxBatch)
    ensures WellFormed(r)
    decreases |es|
  {
    if es == [] then s else After(Next(s, es[0], maxBatch), es[1..], maxBatch)
  }

  // ---------- Safety ----------

  ghost predicate Distinct(keys: seq<Key>) {
    forall i, j :: 0 <= i < j < |keys| ==> keys[i] != keys[j]
  }

  /** The batch that collects keys has its one timer asleep and no end yet; any other has exactly one end,
      and a timer only if the size limit closed it first, which it does when the batch is full and not before. */
  ghost predicate BatchInv(b: Batch, current: bool, maxBatch: int) {
    && b.keys != [] && Distinct(b.keys)
    && (maxBatch > 0 ==> |b.keys| <= maxBatch)
    && b.toFetch + b.toClose + b.closed == (if current then 0 else 1)
    && (current ==> b.timers == 1 && !b.closing && (maxBatch != 0 ==> |b.keys| < maxBatch))
    && b.timers <= 1
    && (!current && b.timers == 1 ==> b.closing)
    && (b.closing ==> maxBatch != 0 && |b.keys| == if maxBatch > 0 then maxBatch else 1)
  }

  ghost predicate Inv(s: State, maxBatch: int) {
    && WellFormed(s) && !s.panicked
    && (forall b :: 0 <= b < |s.batches| ==> BatchInv(s.batches[b], s.batch == Some(b), maxBatch))
    && (forall t :: t in s.issued ==> t.pos < |s.batches[t.batch].keys| && s.batches[t.batch].keys[t.pos] == t.key)
  }

  lemma AddKeyInv(b: Batch, key: Key, maxBatch: int)
    requires b == NEW_BATCH || BatchInv(b, true, maxBatch)
    requires key !in b.keys
    ensures var (added, full) := AddKey(b, key, maxBatch); BatchInv(added, !full, maxBatch)
  {
  }

  lemma LoadThunkKeepsInv(s: State, key: Key, maxBatch: int)
    requires Inv(s, maxBatch)
    ensures Inv(LoadThunkStep(s, key, maxBatch).0, maxBatch)
  {
    if key !in s.cache {
      var b := if s.batch.Some? then s.batch.value else |s.batches|;
      var batch := if s.batch.Some? then s.batches[b] else NEW_BATCH;
      if IndexOf(batch.keys, key) == |batch.keys| {
        AddKeyInv(batch, key, maxBatch);
      }
      hide BatchInv, IndexOf;
    }
  }

  lemma NextKeepsInv(s: State, e: Event, maxBatch: int)
    requires Inv(s, maxBatch) && Enabled(s, e)
    ensures Inv(Next(s, e, maxBatch), maxBatch)
  {
    if e.LoadThunk? {
      LoadThunkKeepsInv(s, e.key, maxBatch);
    }
  }

  /** In every state of every run: no channel is closed twice, every detached batch has exactly one end,
      keys are distinct and within the limit, and every thunk's position names its key. */
  lemma {:induction false} RunKeepsInv(s: State, es: seq<Event>, maxBatch: int)
    requires Inv(s, maxBatch) && IsRun(s, es, maxBatch)
    ensures Inv(After(s, es, maxBatch), maxBatch)
    decreases |es|
  {
    if es != [] {
      NextKeepsInv(s, es[0], maxBatch);
      RunKeepsInv(Next(s, es[0], maxBatch), es[1..], maxBatch);
    }
  }

  // ---------- Positions and frozen batches ----------

  ghost predicate Detached(s: State, b: nat) {
    b < |s.batches| && s.batch != Some(b)
  }

  /** What a step leaves as it was: keys are only appended to, and not even that once a batch is detached;
      thunks stay. */
  ghost predicate Extends(s: State, r: State) {
    && |s.batches| <= |r.batches| && s.issued <= r.issued
    && (forall b :: 0 <= b < |s.batches| ==> s.batches[b].keys <= r.batches[b].keys)
    && (forall b :: 0 <= b < |s.batches| && Detached(s, b) ==> Detached(r, b) && r.batches[b].keys == s.batches[b].keys)
  }

  lemma NextExtends(s: State, e: Event, maxBatch: int)
    requires Inv(s, maxBatch) && Enabled(s, e)
    ensures Extends(s, Next(s, e, maxBatch))
  {
    if e.LoadThunk? {
      LoadExtends(s, e.key, maxBatch);
    }
    hide LoadThunkStep;
  }

  lemma LoadExtends(s: State, key: Key, maxBatch: int)
    requires Inv(s, maxBatch)
    ensures Extends(s, LoadThunkStep(s, key, maxBatch).0)
  {
    hide IndexOf, BatchInv;
  }

  lemma ExtendsThrough(s: State, r: State, q: State)
    requires Extends(s, r) && Extends(r, q)
    ensures Extends(s, q)
  {
  }

  /** Over every run: a position keeps naming its key, and a detached batch, whose keys end reads without
      the lock, is frozen. */
  lemma {:induction false} RunExtends(s: State, es: seq<Event>, maxBatch: int)
    requires Inv(s, maxBatch) && IsRun(s, es, maxBatch)
    ensures Extends(s, After(s, es, maxBatch))
    decreases |es|
  {
    if es != [] {
      var r := Next(s, es[0], maxBatch);
      NextKeepsInv(s, es[0], maxBatch);
      NextExtends(s, es[0], maxBatch);
      RunExtends(r, es[1..], maxBatch);
      hide Inv, Extends, Next;
      ExtendsThrough(s, r, After(s, es, maxBatch));
    }
  }

  // ---------- Progress ----------

  /** The internal events a batch has before it at most */
  function Work(b: Batch): nat {
    3 * b.timers + 2 * b.toFetch + b.toClose
  }

  ghost function TotalWork(bs: seq<Batch>): nat {
    if bs == [] then 0 else Work(bs[0]) + TotalWork(bs[1..])
  }

  lemma {:induction false} TotalWorkUpdate(bs: seq<Batch>, b: nat, x: Batch)
    requires b < |bs|
    ensures TotalWork(bs[b := x]) == TotalWork(bs) - Work(bs[b]) + Work(x)
  {
    hide Work;
    if b == 0 {
      assert bs[b := x][1..] == bs[1..];
    } else {
      TotalWorkUpdate(bs[1..], b - 1, x);
      assert bs[b := x][1..] == bs[1..][b - 1 := x];
    }
  }

  lemma InternalWorks(s: State, e: Event, maxBatch: int)
    requires WellFormed(s) && Enabled(s, e) && Internal(e)
    ensures TotalWork(Next(s, e, maxBatch).batches) < TotalWork(s.batches)
  {
    var r := Next(s, e, maxBatch);
    TotalWorkUpdate(s.batches, e.b, r.batches[e.b]);
    assert r.batches == s.batches[e.b := r.batches[e.b]];
  }

  ghost predicate AllInternal(es: seq<Event>) {
    forall i :: 0 <= i < |es| ==> Internal(es[i])
  }

  /** Timers, fetches and closes cannot go on for ever. */
  lemma {:induction false} InternalRunsEnd(s: State, es: seq<Event>, maxBatch: int)
    requires WellFormed(s) && IsRun(s, es, maxBatch) && AllInternal(es)
    ensures |es| + TotalWork(After(s, es, maxBatch).batches) <= TotalWork(s.batches)
    decreases |es|
  {
    if es != [] {
      InternalWorks(s, es[0], maxBatch);
      InternalRunsEnd(Next(s, es[0], maxBatch), es[1..], maxBatch);
    }
  }

  datatype Kind = TimerEvent | FetchEvent | CloseEvent

  /** An event of this kind of batch b */
  predicate Is(e: Event, b: nat, kind: Kind) {
    match kind
    case TimerEvent => e.Timer? && e.b == b
    case FetchEvent => e.Fetch? && e.b == b
    case CloseEvent => e.Close? && e.b == b
  }

  function Count(es: seq<Event>, b: nat, kind: Kind): nat {
    if es == [] then 0 else (if Is(es[0], b, kind) then 1 else 0) + Count(es[1..], b, kind)
  }

  /** How many events of this kind a batch, made or not, has yet before it */
  ghost function Left(s: State, b: nat, kind: Kind): nat {
    if b >= |s.batches| then 1
    else
      var batch := s.batches[b];
      match kind
      case TimerEvent => batch.timers
      case FetchEvent => if batch.toFetch + batch.toClose + batch.closed == 0 then 1 else batch.toFetch
      case CloseEvent => if batch.closed == 0 then 1 else 0
  }

  lemma LoadUsesNone(s: State, key: Key, b: nat, kind: Kind, maxBatch: int)
    requires Inv(s, maxBatch)
    ensures Left(LoadThunkStep(s, key, maxBatch).0, b, kind) == Left(s, b, kind)
  {
    hide IndexOf;
    if b < |s.batches| {
      assert BatchInv(s.batches[b], s.batch == Some(b), maxBatch);
    }
  }

  lemma StepUses(s: State, e: Event, b: nat, kind: Kind, maxBatch: int)
    requires Inv(s, maxBatch) && Enabled(s, e)
    ensures Left(Next(s, e, maxBatch), b, kind) + (if Is(e, b, kind) then 1 else 0) == Left(s, b, kind)
  {
    hide LoadThunkStep, Lookup;
    if e.LoadThunk? {
      LoadUsesNone(s, e.key, b, kind, maxBatch);
    }
    if b < |s.batches| {
      assert BatchInv(s.batches[b], s.batch == Some(b), maxBatch);
    }
  }

  /** Over every run, whatever callers do meanwhile, each batch uses up one timer, one fetch and one close. */
  lemma {:induction false} RunUses(s: State, es: seq<Event>, b: nat, kind: Kind, maxBatch: int)
    requires Inv(s, maxBatch) && IsRun(s, es, maxBatch)
    ensures Count(es, b, kind) + Left(After(s, es, maxBatch), b, kind) == Left(s, b, kind) <= 1
    decreases |es|
  {
    LeftAtMostOne(s, b, kind, maxBatch);
    if es != [] {
      NextKeepsInv(s, es[0], maxBatch);
      StepUses(s, es[0], b, kind, maxBatch);
      RunUses(Next(s, es[0], maxBatch), es[1..], b, kind, maxBatch);
    }
  }

  lemma LeftAtMostOne(s: State, b: nat, kind: Kind, maxBatch: int)
    requires Inv(s, maxBatch)
    ensures Left(s, b, kind) <= 1
  {
    if b < |s.batches| {
      assert BatchInv(s.batches[b], s.batch == Some(b), maxBatch);
    }
  }

  /** An internal event that can happen still can after any other event. */
  lemma NotDisabled(s: State, e: Event, other: Event, b: nat, kind: Kind, maxBatch: int)
    requires Inv(s, maxBatch) && Enabled(s, e) && Enabled(s, other)
    requires Is(e, b, kind) && !Is(other, b, kind)
    ensures Enabled(Next(s, other, maxBatch), e)
  {
    hide IndexOf, BatchInv;
  }

  /** So it can happen at any later time, until it does. */
  lemma {:induction false} StaysEnabled(s: State, es: seq<Event>, e: Event, b: nat, kind: Kind, maxBatch: int)
    requires Inv(s, maxBatch) && IsRun(s, es, maxBatch) && Enabled(s, e) && Is(e, b, kind)
    requires Count(es, b, kind) == 0
    ensures Enabled(After(s, es, maxBatch), e)
    decreases |es|
  {
    hide BatchInv, Next, Is;
    if es != [] {
      NextKeepsInv(s, es[0], maxBatch);
      NotDisabled(s, e, es[0], b, kind, maxBatch);
      StaysEnabled(Next(s, es[0], maxBatch), es[1..], e, b, kind, maxBatch);
    }
  }

  /** However long a run is and whatever callers do in it, no more than three events lie between a thunk and its
      answer: once its batch's timer, fetch and close have happened, it can be resolved. */
  lemma ThreeEventsAnswer(s: State, es: seq<Event>, t: Thunk, maxBatch: int)
    requires Inv(s, maxBatch) && IsRun(s, es, maxBatch) && t in s.issued
    ensures var b := t.batch;
            Count(es, b, TimerEvent) + Count(es, b, FetchEvent) + Count(es, b, CloseEvent)
            <= Left(s, b, TimerEvent) + Left(s, b, FetchEvent) + Left(s, b, CloseEvent) <= 3
    ensures Count(es, t.batch, CloseEvent) == Left(s, t.batch, CloseEvent) <==>
      Enabled(After(s, es, maxBatch), Resolve(t))
  {
    hide BatchInv;
    RunUses(s, es, t.batch, TimerEvent, maxBatch);
    RunUses(s, es, t.batch, FetchEvent, maxBatch);
    RunUses(s, es, t.batch, CloseEvent, maxBatch);
    RunKeepsInv(s, es, maxBatch);
    RunExtends(s, es, maxBatch);
  }

  /** As long as done is not closed, a timer, a fetch or a close of that very batch can happen; once none can,
      every thunk can be resolved. */
  lemma NoThunkWaitsForever(s: State, t: Thunk, maxBatch: int)
    requires Inv(s, maxBatch) && t in s.issued
    ensures Enabled(s, Resolve(t))
            || Enabled(s, Timer(t.batch)) || Enabled(s, Close(t.batch))
            || forall outcome :: Enabled(s, Fetch(t.batch, outcome))
    ensures Enabled(s, Resolve(t)) ==> s.batches[t.batch].closed == 1
    ensures !Enabled(s, Resolve(t)) && s.batch != Some(t.batch) ==>
              Enabled(s, Close(t.batch)) || forall outcome :: Enabled(s, Fetch(t.batch, outcome))
  {
    assert BatchInv(s.batches[t.batch], s.batch == Some(t.batch), maxBatch);
  }

  // ---------- Refinement of the plain lookup ----------

  type Table = map<Key, PublicUser>

  ghost predicate IsTable(table: Table) {
    forall k :: k in table ==> table[k].id == k
  }

  ghost function Find(table: Table, key: Key): Option<PublicUser> {
    if key in table then Some(table[key]) else None
  }

  /** The rows of a table for some keys, in any order */
  ghost predicate Selects(table: Table, keys: seq<Key>, rows: seq<PublicUser>) {
    && (forall i :: 0 <= i < |rows| ==> rows[i].id in table && table[rows[i].id] == rows[i])
    && (forall i :: 0 <= i < |keys| && keys[i] in table ==> table[keys[i]] in rows)
  }

  lemma {:induction false} LookupFinds(table: Table, rows: seq<PublicUser>, key: Key)
    requires IsTable(table)
    requires forall i :: 0 <= i < |rows| ==> rows[i].id in table && table[rows[i].id] == rows[i]
    requires key in table ==> table[key] in rows
    ensures Lookup(rows, key) == Find(table, key)
  {
    if rows != [] && rows[0].id != key {
      LookupFinds(table, rows[1..], key);
    }
  }

  /** Realigned rows answer every key, whatever order the database returned them in. */
  lemma FetchedFinds(table: Table, keys: seq<Key>, rows: seq<PublicUser>)
    requires IsTable(table) && Selects(table, keys, rows)
    ensures var (data, errors) := Fetched(keys, Ok(rows));
            errors == None && |data| == |keys| && forall i :: 0 <= i < |keys| ==> data[i] == Find(table, keys[i])
  {
    hide Lookup, Find;
    forall i | 0 <= i < |keys|
      ensures Lookup(rows, keys[i]) == Find(table, keys[i])
    {
      LookupFinds(table, rows, keys[i]);
    }
  }

  /** Callers prime the cache with rows of the table, and a fetch that succeeds returns rows of the table. */
  ghost predicate Truthful(table: Table, s: State, e: Event)
    requires Enabled(s, e)
  {
    match e
    case Prime(key, user) => Find(table, key) == Some(user)
    case Fetch(b, Ok(rows)) => Selects(table, s.batches[b].keys, rows)
    case _ => true
  }

  ghost predicate TruthfulRun(table: Table, s: State, es: seq<Event>, maxBatch: int)
    requires WellFormed(s) && IsRun(s, es, maxBatch)
    decreases |es|
  {
    es == [] || (Truthful(table, s, es[0]) && TruthfulRun(table, Next(s, es[0], maxBatch), es[1..], maxBatch))
  }

  /** A batch whose fetch returned holds the table's answers, or one error for all its keys. */
  ghost predicate Answered(table: Table, b: Batch) {
    || (b.errors == None && |b.data| == |b.keys|
        && forall i :: 0 <= i < |b.keys| ==> b.data[i] == Find(table, b.keys[i]))
    || (b.errors.Some? && |b.errors.value| == 1 && b.data == [])
  }

  ghost predicate AnswersInv(table: Table, s: State) {
    && (forall k :: k in s.cache ==> s.cache[k] == Find(table, k))
    && (forall b ::
      0 <= b < |s.batches| && s.batches[b].toClose + s.batches[b].closed > 0 ==> Answered(table, s.batches[b]))
  }

  /** A thunk returns what the table has for its key, or the single error of its batch and nothing else. */
  lemma AnswerIsLookup(table: Table, s: State, t: Thunk, maxBatch: int)
    requires Inv(s, maxBatch) && AnswersInv(table, s) && Enabled(s, Resolve(t))
    ensures var (data, error) := Answer(s, t);
            if error.None? then data == Find(table, t.key)
            else data.None? && s.batches[t.batch].errors == Some([error.value])
  {
    hide Find, BatchInv;
    var batch := s.batches[t.batch];
    assert Answered(table, batch);
    if batch.errors.Some? {
      assert batch.errors.value == [batch.errors.value[0]];
    }
  }

  lemma FetchKeepsAnswers(table: Table, s: State, b: nat, outcome: Result<seq<PublicUser>>)
    requires IsTable(table) && AnswersInv(table, s) && Enabled(s, Fetch(b, outcome))
      && Truthful(table, s, Fetch(b, outcome))
    ensures AnswersInv(table, FetchStep(s, b, outcome))
  {
    if outcome.Ok? {
      FetchedFinds(table, s.batches[b].keys, outcome.value);
    }
    hide Find, Selects;
  }

  lemma NextKeepsAnswers(table: Table, s: State, e: Event, maxBatch: int)
    requires IsTable(table) && Inv(s, maxBatch) && AnswersInv(table, s) && Enabled(s, e) && Truthful(table, s, e)
    ensures AnswersInv(table, Next(s, e, maxBatch))
  {
    match e
    case LoadThunk(key) =>
      LoadKeepsAnswers(table, s, key, maxBatch);
    case Fetch(b, outcome) =>
      FetchKeepsAnswers(table, s, b, outcome);
    case Resolve(t) =>
      AnswerIsLookup(table, s, t, maxBatch);
    case _ =>
  }

  lemma LoadKeepsAnswers(table: Table, s: State, key: Key, maxBatch: int)
    requires Inv(s, maxBatch) && AnswersInv(table, s)
    ensures AnswersInv(table, LoadThunkStep(s, key, maxBatch).0)
  {
    hide Find, Answered, IndexOf;
    var r := LoadThunkStep(s, key, maxBatch).0;
    if s.batch.Some? {
      assert BatchInv(s.batches[s.batch.value], true, maxBatch);
    }
    forall b | 0 <= b < |r.batches| && r.batches[b].toClose + r.batches[b].closed > 0
      ensures Answered(table, r.batches[b])
    {
      assert b < |s.batches| && r.batches[b] == s.batches[b];
    }
  }

  /** Over every truthful run from the start, the cache only ever holds values of the table. */
  lemma {:induction false} RunKeepsAnswers(table: Table, s: State, es: seq<Event>, maxBatch: int)
    requires IsTable(table) && Inv(s, maxBatch) && AnswersInv(table, s) && IsRun(s, es, maxBatch)
      && TruthfulRun(table, s, es, maxBatch)
    ensures AnswersInv(table, After(s, es, maxBatch))
    decreases |es|
  {
    hide BatchInv, AnswersInv, Next, Truthful;
    if es != [] {
      NextKeepsInv(s, es[0], maxBatch);
      NextKeepsAnswers(table, s, es[0], maxBatch);
      RunKeepsAnswers(table, Next(s, es[0], maxBatch), es[1..], maxBatch);
    }
  }

  lemma InitialInv(table: Table, maxBatch: int)
    ensures Inv(INITIAL, maxBatch) && AnswersInv(table, INITIAL)
  {
  }

  // ---------- What a batch holds comes from its fetch ----------

  /** What the fetch of batch b came back with, if it happened; RunUses says that it happens once at most. */
  function FetchOutcome(es: seq<Event>, b: nat): Option<Result<seq<PublicUser>>> {
    if es == [] then None else if Is(es[0], b, FetchEvent) then Some(es[0].outcome) else FetchOutcome(es[1..], b)
  }

  function ErrorsOf(outcome: Result<seq<PublicUser>>): Option<seq<string>> {
    match outcome
    case Ok(_) => None
    case Err(message) => Some([message])
  }

  lemma {:induction false} FetchCounted(es: seq<Event>, b: nat)
    ensures FetchOutcome(es, b).Some? <==> Count(es, b, FetchEvent) > 0
  {
    if es != [] {
      FetchCounted(es[1..], b);
    }
  }

  lemma {:induction false} FetchOutcomePrefix(es: seq<Event>, n: nat, b: nat)
    requires n <= |es| && FetchOutcome(es[..n], b).Some?
    ensures FetchOutcome(es, b) == FetchOutcome(es[..n], b)
  {
    hide Is;
    if !Is(es[0], b, FetchEvent) {
      assert es[..n][1..] == es[1..][..n - 1];
      FetchOutcomePrefix(es[1..], n - 1, b);
    }
  }

  /** Only the fetch of a batch writes its errors. */
  lemma StepErrors(s: State, e: Event, b: nat, maxBatch: int)
    requires Inv(s, maxBatch) && Enabled(s, e) && (Is(e, b, FetchEvent) || Left(s, b, FetchEvent) == 0)
    ensures var r := Next(s, e, maxBatch);
            b < |r.batches| && r.batches[b].errors == if Is(e, b, FetchEvent) then ErrorsOf(e.outcome)
              else s.batches[b].errors
  {
    hide IndexOf, Lookup;
    if b < |s.batches| {
      assert BatchInv(s.batches[b], s.batch == Some(b), maxBatch);
    }
  }

  lemma {:induction false} FetchedKeepsErrors(s: State, es: seq<Event>, b: nat, maxBatch: int)
    requires Inv(s, maxBatch) && IsRun(s, es, maxBatch) && Left(s, b, FetchEvent) == 0
    ensures var r := After(s, es, maxBatch); b < |r.batches| && r.batches[b].errors == s.batches[b].errors
    decreases |es|
  {
    hide BatchInv, Next, Is;
    if es != [] {
      NextKeepsInv(s, es[0], maxBatch);
      StepUses(s, es[0], b, FetchEvent, maxBatch);
      StepErrors(s, es[0], b, maxBatch);
      FetchedKeepsErrors(Next(s, es[0], maxBatch), es[1..], b, maxBatch);
    }
  }

  /** Over every run, the errors of a batch are those its one fetch came back with, whoever loads, primes or clears
      meanwhile. */
  lemma {:induction false} RunErrors(s: State, es: seq<Event>, b: nat, maxBatch: int)
    requires Inv(s, maxBatch) && IsRun(s, es, maxBatch)
    requires Left(s, b, FetchEvent) == 1 && Left(After(s, es, maxBatch), b, FetchEvent) == 0
    ensures var r := After(s, es, maxBatch);
            && b < |r.batches| && FetchOutcome(es, b).Some?
            && r.batches[b].errors == ErrorsOf(FetchOutcome(es, b).value)
    decreases |es|
  {
    hide BatchInv, Next, Is, ErrorsOf;
    if es != [] {
      NextKeepsInv(s, es[0], maxBatch);
      StepUses(s, es[0], b, FetchEvent, maxBatch);
      var r := Next(s, es[0], maxBatch);
      if Is(es[0], b, FetchEvent) {
        StepErrors(s, es[0], b, maxBatch);
        FetchedKeepsErrors(r, es[1..], b, maxBatch);
      } else {
        RunErrors(r, es[1..], b, maxBatch);
      }
    }
  }

  /** After every truthful run from the start, the cache holds values of the table only; and a batch holds an answer
      exactly if its fetch happened: the table's value for each of its keys if that came back well, and nothing but the
      one error if it came back with an error. */
  lemma RunAnswers(table: Table, es: seq<Event>, b: nat, maxBatch: int)
    requires IsTable(table) && IsRun(INITIAL, es, maxBatch) && TruthfulRun(table, INITIAL, es, maxBatch)
    ensures forall k :: k in After(INITIAL, es, maxBatch).cache ==>
              After(INITIAL, es, maxBatch).cache[k] == Find(table, k)
    ensures var s := After(INITIAL, es, maxBatch);
            (b < |s.batches| && s.batches[b].toClose + s.batches[b].closed > 0) <==> FetchOutcome(es, b).Some?
    ensures FetchOutcome(es, b).Some? ==>
              var batch := After(INITIAL, es, maxBatch).batches[b];
              match FetchOutcome(es, b).value
              case Ok(_) => batch.errors == None && |batch.data| == |batch.keys|
                && forall i :: 0 <= i < |batch.keys| ==> batch.data[i] == Find(table, batch.keys[i])
              case Err(message) => batch.errors == Some([message]) && batch.data == []
  {
    hide Next, Is, Find;
    var s := After(INITIAL, es, maxBatch);
    InitialInv(table, maxBatch);
    RunKeepsInv(INITIAL, es, maxBatch);
    RunKeepsAnswers(table, INITIAL, es, maxBatch);
    RunUses(INITIAL, es, b, FetchEvent, maxBatch);
    FetchCounted(es, b);
    if b < |s.batches| {
      assert BatchInv(s.batches[b], s.batch == Some(b), maxBatch);
    }
    if FetchOutcome(es, b).Some? {
      RunErrors(INITIAL, es, b, maxBatch);
    }
  }

  // ---------- Load and LoadAll ----------

  lemma ThunkOf(table: Table, s: State, key: Key, maxBatch: int)
    requires WellFormed(s) && AnswersInv(table, s)
    ensures var t := LoadThunkStep(s, key, maxBatch).1; if t.Ready? then t.value == Find(table, key) else t.key == key
  {
  }

  /** A run up to any point, and on from there */
  lemma {:induction false} RunSplit(s: State, es: seq<Event>, n: nat, maxBatch: int)
    requires WellFormed(s) && IsRun(s, es, maxBatch) && n <= |es|
    ensures IsRun(s, es[..n], maxBatch) && IsRun(After(s, es[..n], maxBatch), es[n..], maxBatch)
    ensures After(s, es, maxBatch) == After(After(s, es[..n], maxBatch), es[n..], maxBatch)
    decreases n
  {
    hide Next, IsRun, After, Enabled;
    if n == 0 {
      RunNone(s, maxBatch);
      assert es[..0] == [] && es[0..] == es;
    } else {
      RunStep(s, es, maxBatch);
      RunSplit(Next(s, es[0], maxBatch), es[1..], n - 1, maxBatch);
      assert es[..n][0] == es[0] && es[..n][1..] == es[1..][..n - 1] && es[n..] == es[1..][n - 1..];
      RunStep(s, es[..n], maxBatch);
    }
  }

  lemma RunNone(s: State, maxBatch: int)
    requires WellFormed(s)
    ensures IsRun(s, [], maxBatch) && After(s, [], maxBatch) == s
  {
  }

  lemma RunStep(s: State, es: seq<Event>, maxBatch: int)
    requires WellFormed(s) && es != []
    ensures IsRun(s, es, maxBatch) <==> Enabled(s, es[0]) && IsRun(Next(s, es[0], maxBatch), es[1..], maxBatch)
    ensures IsRun(s, es, maxBatch) ==>
      After(s, es, maxBatch) == After(Next(s, es[0], maxBatch), es[1..], maxBatch)
  {
    hide Next, Enabled;
  }

  lemma {:induction false} TruthfulSplit(table: Table, s: State, es: seq<Event>, n: nat, maxBatch: int)
    requires WellFormed(s) && IsRun(s, es, maxBatch) && n <= |es| && TruthfulRun(table, s, es, maxBatch)
    ensures IsRun(s, es[..n], maxBatch) && IsRun(After(s, es[..n], maxBatch), es[n..], maxBatch)
    ensures TruthfulRun(table, s, es[..n], maxBatch)
      && TruthfulRun(table, After(s, es[..n], maxBatch), es[n..], maxBatch)
    decreases n
  {
    hide Next, Truthful, IsRun, After, Enabled;
    RunSplit(s, es, n, maxBatch);
    if n == 0 {
      RunNone(s, maxBatch);
      assert es[..0] == [] && es[0..] == es;
    } else {
      RunStep(s, es, maxBatch);
      RunStep(s, es[..n], maxBatch);
      assert es[..n][0] == es[0];
      TruthfulSplit(table, Next(s, es[0], maxBatch), es[1..], n - 1, maxBatch);
      assert es[..n][1..] == es[1..][..n - 1] && es[n..] == es[1..][n - 1..];
    }
  }

  ghost function StateAt(es: seq<Event>, n: nat, maxBatch: int): (s: State)
    requires IsRun(INITIAL, es, maxBatch) && n <= |es|
    ensures WellFormed(s)
  {
    RunSplit(INITIAL, es, n, maxBatch);
    After(INITIAL, es[..n], maxBatch)
  }

  ghost function ThunkAt(es: seq<Event>, n: nat, key: Key, maxBatch: int): Thunk
    requires IsRun(INITIAL, es, maxBatch) && n <= |es|
  {
    LoadThunkStep(StateAt(es, n, maxBatch), key, maxBatch).1
  }

  /** The key is asked for at time n, and the thunk, if it waits, is called at time m. */
  ghost predicate IsCalled(es: seq<Event>, n: nat, m: nat, key: Key, maxBatch: int)
    requires IsRun(INITIAL, es, maxBatch) && n < m <= |es|
  {
    var t := ThunkAt(es, n, key, maxBatch);
    es[n] == LoadThunk(key) && (t.Waiting? ==> m < |es| && es[m] == Resolve(t))
  }

  lemma EnabledAt(es: seq<Event>, m: nat, maxBatch: int)
    requires IsRun(INITIAL, es, maxBatch) && m <= |es|
    ensures m < |es| ==> Enabled(StateAt(es, m, maxBatch), es[m])
  {
    hide Enabled;
    RunSplit(INITIAL, es, m, maxBatch);
  }

  /** What a run does from the event at time n up to time m */
  lemma RunBetween(es: seq<Event>, n: nat, m: nat, maxBatch: int)
    requires IsRun(INITIAL, es, maxBatch) && n < m <= |es|
    ensures Inv(StateAt(es, n, maxBatch), maxBatch) && Enabled(StateAt(es, n, maxBatch), es[n])
    ensures var s := Next(StateAt(es, n, maxBatch), es[n], maxBatch);
            && Inv(s, maxBatch) && IsRun(s, es[n + 1..m], maxBatch)
            && After(s, es[n + 1..m], maxBatch) == StateAt(es, m, maxBatch)
  {
    hide Next, IsRun, After, Enabled, BatchInv;
    InitialInv(map[], maxBatch);
    Slices(es, n, m);
    RunSplit(INITIAL, es, m, maxBatch);
    RunSplit(INITIAL, es[..m], n, maxBatch);
    RunStep(StateAt(es, n, maxBatch), es[n..m], maxBatch);
    RunKeepsInv(INITIAL, es[..n], maxBatch);
    NextKeepsInv(StateAt(es, n, maxBatch), es[n], maxBatch);
  }

  lemma Slices(es: seq<Event>, n: nat, m: nat)
    requires n < m <= |es|
    ensures es[..m][..n] == es[..n] && es[..m][n..] == es[n..m] && es[n..m][1..] == es[n + 1..m] && es[n..m][0] == es[n]
  {
  }

  // ---------- Batching ----------

  /** With a limit, at every point of every run: no batch has more keys than it, the batch that collects keys has fewer,
      and a batch that was closed before its timer fired has exactly as many. */
  lemma ClosedEarlyIsFull(es: seq<Event>, b: nat, maxBatch: int)
    requires maxBatch > 0 && IsRun(INITIAL, es, maxBatch) && b < |After(INITIAL, es, maxBatch).batches|
    ensures var s := After(INITIAL, es, maxBatch); var n := |s.batches[b].keys|;
            && 1 <= n <= maxBatch && (s.batch == Some(b) ==> n < maxBatch)
            && (s.batches[b].closing ==> n == maxBatch)
            && (s.batch != Some(b) && Count(es, b, TimerEvent) == 0 ==> n == maxBatch)
  {
    InitialInv(map[], maxBatch);
    RunKeepsInv(INITIAL, es, maxBatch);
    RunUses(INITIAL, es, b, TimerEvent, maxBatch);
    var s := After(INITIAL, es, maxBatch);
    assert BatchInv(s.batches[b], s.batch == Some(b), maxBatch);
  }

  /** Loads of keys that are not cached wait for the same batch, as long as its timer has not fired and it is not
      full. */
  lemma LoadsShareBatch(es: seq<Event>, n: nat, m: nat, key: Key, next: Key, maxBatch: int)
    requires IsRun(INITIAL, es, maxBatch) && n < m < |es| && es[n] == LoadThunk(key) && es[m] == LoadThunk(next)
    requires key !in StateAt(es, n, maxBatch).cache && next !in StateAt(es, m, maxBatch).cache
    ensures var t, u := ThunkAt(es, n, key, maxBatch), ThunkAt(es, m, next, maxBatch);
            && t.Waiting? && u.Waiting? && t.batch < |StateAt(es, m, maxBatch).batches|
            && (Count(es[n + 1..m], t.batch, TimerEvent) == 0
                && (maxBatch == 0 || |StateAt(es, m, maxBatch).batches[t.batch].keys| < maxBatch)
                ==> u.batch == t.batch)
  {
    RunBetween(es, n, m, maxBatch);
    var s, r := StateAt(es, n, maxBatch), StateAt(es, m, maxBatch);
    var q, b := Next(s, es[n], maxBatch), ThunkAt(es, n, key, maxBatch).batch;
    NewThunkBatch(s, key, maxBatch);
    RunUses(q, es[n + 1..m], b, TimerEvent, maxBatch);
    RunExtends(q, es[n + 1..m], maxBatch);
    RunKeepsInv(q, es[n + 1..m], maxBatch);
    hide LoadThunkStep, IsRun, After, StateAt, Next;
    NewThunkBatch(r, next, maxBatch);
    assert BatchInv(r.batches[b], r.batch == Some(b), maxBatch);
  }

  /** A load of a key that is not cached waits for the batch that collects keys, or for a new one. Its timer has not
      fired yet. */
  lemma NewThunkBatch(s: State, key: Key, maxBatch: int)
    requires Inv(s, maxBatch) && key !in s.cache
    ensures var (r, t) := LoadThunkStep(s, key, maxBatch);
            && t.Waiting? && t.batch < |r.batches| && r.batches[t.batch].timers == 1
            && t.batch == if s.batch.Some? then s.batch.value else |s.batches|
  {
    hide IndexOf;
    if s.batch.Some? {
      assert BatchInv(s.batches[s.batch.value], true, maxBatch);
    }
  }

  // ---------- What the cache remembers ----------

  ghost predicate Clears(e: Event, key: Key) {
    e == Clear(key)
  }

  /** Priming the key, or a call of a thunk for it */
  ghost predicate Writes(e: Event, key: Key) {
    (e.Prime? && e.key == key) || (e.Resolve? && e.thunk.Waiting? && e.thunk.key == key)
  }

  lemma {:induction false} CacheKept(s: State, es: seq<Event>, key: Key, maxBatch: int)
    requires WellFormed(s) && IsRun(s, es, maxBatch)
    ensures key in s.cache && (forall i :: 0 <= i < |es| ==> !Clears(es[i], key)) ==>
      key in After(s, es, maxBatch).cache
    ensures key !in s.cache && (forall i :: 0 <= i < |es| ==> !Writes(es[i], key)) ==>
      key !in After(s, es, maxBatch).cache
    decreases |es|
  {
    if es != [] {
      StepCache(s, es[0], key, maxBatch);
      hide Next, Clears, Writes, Enabled;
      CacheKept(Next(s, es[0], maxBatch), es[1..], key, maxBatch);
    }
  }

  lemma StepCache(s: State, e: Event, key: Key, maxBatch: int)
    requires WellFormed(s) && Enabled(s, e)
    ensures !Clears(e, key) && key in s.cache ==> key in Next(s, e, maxBatch).cache
    ensures !Writes(e, key) && key !in s.cache ==> key !in Next(s, e, maxBatch).cache
  {
    hide IndexOf;
  }

  /** After a key is cleared its next load waits for a batch, unless it is primed or resolved in between. */
  lemma ClearForgets(es: seq<Event>, n: nat, m: nat, key: Key, maxBatch: int)
    requires IsRun(INITIAL, es, maxBatch) && n < m <= |es| && es[n] == Clear(key)
    requires forall i :: n < i < m ==>
               !(es[i].Prime? && es[i].key == key)
               && !(es[i].Resolve? && es[i].thunk.Waiting? && es[i].thunk.key == key)
    ensures ThunkAt(es, m, key, maxBatch).Waiting?
  {
    RunBetween(es, n, m, maxBatch);
    CacheKept(Next(StateAt(es, n, maxBatch), es[n], maxBatch), es[n + 1..m], key, maxBatch);
  }

  /** Once a key is primed, or a thunk for it was answered by a fetch that came back well, its loads are answered at
      once until it is cleared. */
  lemma CacheRemembers(table: Table, es: seq<Event>, n: nat, m: nat, key: Key, maxBatch: int)
    requires IsTable(table) && IsRun(INITIAL, es, maxBatch) && TruthfulRun(table, INITIAL, es, maxBatch)
    requires n < m <= |es|
    requires (es[n].Prime? && es[n].key == key)
             || (es[n].Resolve? && es[n].thunk.Waiting? && es[n].thunk.key == key
                 && FetchOutcome(es, es[n].thunk.batch).Some? && FetchOutcome(es, es[n].thunk.batch).value.Ok?)
    requires forall i :: n < i < m ==> es[i] != Clear(key)
    ensures ThunkAt(es, m, key, maxBatch) == Ready(Find(table, key))
  {
    hide LoadThunkStep, Find, FetchOutcome, BatchInv, IsRun, After, TruthfulRun;
    RunBetween(es, n, m, maxBatch);
    InitialInv(table, maxBatch);
    TruthfulSplit(table, INITIAL, es, n, maxBatch);
    TruthfulSplit(table, INITIAL, es, m, maxBatch);
    RunKeepsAnswers(table, INITIAL, es[..m], maxBatch);
    if es[n].Resolve? {
      ThunkAnswered(table, es[..n], es[n].thunk, maxBatch);
      FetchOutcomePrefix(es, n, es[n].thunk.batch);
    }
    CacheKept(Next(StateAt(es, n, maxBatch), es[n], maxBatch), es[n + 1..m], key, maxBatch);
    ReadyThunk(StateAt(es, m, maxBatch), key, maxBatch);
  }

  lemma ReadyThunk(s: State, key: Key, maxBatch: int)
    requires WellFormed(s) && key in s.cache
    ensures LoadThunkStep(s, key, maxBatch) == (s, Ready(s.cache[key]))
  {
  }

  /** Clearing a key first primes it by force. */
  lemma ClearThenPrime(s: State, key: Key, user: PublicUser)
    ensures PrimeStep(ClearStep(s, key), key, user) == s.(cache := s.cache[key := Some(user)])
  {
    assert (s.cache - {key})[key := Some(user)] == s.cache[key := Some(user)];
  }

  /** Priming leaves a key that is present as it is, and caches one that is not; no other key is touched. */
  lemma PrimeOnlyAdds(s: State, key: Key, user: PublicUser)
    ensures var r := PrimeStep(s, key, user);
            && r.(cache := s.cache) == s && r.cache.Keys == s.cache.Keys + {key}
            && (forall k :: k in s.cache ==> r.cache[k] == s.cache[k])
            && (key !in s.cache ==> r.cache[key] == Some(user))
  {
  }

  /** What the load at time n returns at time m */
  ghost function Returned(es: seq<Event>, n: nat, m: nat, key: Key, maxBatch: int): (Option<PublicUser>, Option<string>)
    requires IsRun(INITIAL, es, maxBatch) && n < m <= |es| && IsCalled(es, n, m, key, maxBatch)
  {
    EnabledAt(es, m, maxBatch);
    Answer(StateAt(es, m, maxBatch), ThunkAt(es, n, key, maxBatch))
  }

  /** The plain lookup of a key, or the error that its batch's fetch came back with */
  ghost function LookupOrError(table: Table, key: Key, outcome: Result<seq<PublicUser>>):
    (Option<PublicUser>, Option<string>)
  {
    match outcome
    case Ok(_) => (Find(table, key), None)
    case Err(message) => (None, Some(message))
  }

  /** A load refines the plain lookup: it returns the table's value for its key, unless the key was not cached and the
      fetch of its batch failed, and then the error of that fetch and nothing else. */
  lemma LoadIsLookup(table: Table, es: seq<Event>, n: nat, m: nat, key: Key, maxBatch: int)
    requires IsTable(table) && IsRun(INITIAL, es, maxBatch) && TruthfulRun(table, INITIAL, es, maxBatch)
    requires n < m <= |es| && IsCalled(es, n, m, key, maxBatch)
    ensures var t := ThunkAt(es, n, key, maxBatch);
            if t.Ready? then Returned(es, n, m, key, maxBatch) == (Find(table, key), None)
            else
              && FetchOutcome(es, t.batch).Some?
              && Returned(es, n, m, key, maxBatch) == LookupOrError(table, key, FetchOutcome(es, t.batch).value)
  {
    hide Inv, AnswersInv, Find, LoadThunkStep, TruthfulRun, FetchOutcome;
    InitialInv(table, maxBatch);
    TruthfulSplit(table, INITIAL, es, n, maxBatch);
    RunKeepsAnswers(table, INITIAL, es[..n], maxBatch);
    ThunkOf(table, StateAt(es, n, maxBatch), key, maxBatch);
    var t := ThunkAt(es, n, key, maxBatch);
    if t.Waiting? {
      EnabledAt(es, m, maxBatch);
      TruthfulSplit(table, INITIAL, es, m, maxBatch);
      RunKeepsInv(INITIAL, es[..m], maxBatch);
      ThunkAnswered(table, es[..m], t, maxBatch);
      FetchOutcomePrefix(es, m, t.batch);
    }
  }

  /** A thunk whose batch is done returns the plain lookup, or the error of the fetch of its batch. */
  lemma ThunkAnswered(table: Table, es: seq<Event>, t: Thunk, maxBatch: int)
    requires IsTable(table) && IsRun(INITIAL, es, maxBatch) && TruthfulRun(table, INITIAL, es, maxBatch)
    requires Enabled(After(INITIAL, es, maxBatch), Resolve(t))
    ensures FetchOutcome(es, t.batch).Some?
    ensures Answer(After(INITIAL, es, maxBatch), t)
         == LookupOrError(table, t.key, FetchOutcome(es, t.batch).value)
  {
    hide BatchInv, Find, Is, FetchOutcome, TruthfulRun, After, IsRun;
    InitialInv(table, maxBatch);
    RunKeepsInv(INITIAL, es, maxBatch);
    RunAnswers(table, es, t.batch, maxBatch);
  }

  /** One LoadAll within a run: it asks for its keys in order, at the times asked[i], and after the last of them calls
      the thunks in order, at the times answered[i]; anything may happen in between. */
  ghost predicate IsLoadAll(table: Table, keys: seq<Key>, es: seq<Event>, asked: seq<nat>, answered: seq<nat>,
    maxBatch: int)
  {
    && IsRun(INITIAL, es, maxBatch) && TruthfulRun(table, INITIAL, es, maxBatch)
    && |asked| == |answered| == |keys|
    && (forall i :: 0 <= i < |keys| ==> asked[i] < answered[i] <= |es|)
    && (forall i, j :: 0 <= i < |keys| && 0 <= j < |keys| ==> asked[i] < answered[j])
    && (forall i, j :: 0 <= i < j < |keys| ==> asked[i] < asked[j] && answered[i] <= answered[j])
    && (forall i :: 0 <= i < |keys| ==> IsCalled(es, asked[i], answered[i], keys[i], maxBatch))
  }

  /** LoadAll agrees with the plain lookup at every index, however the run batches its keys: where the key was cached or
      the fetch of its batch came back well, it has the table's value, and else the error of that fetch. So indices
      whose thunks name one batch fail or succeed together, and a repeated key then gets the same answer. */
  lemma LoadAllAgrees(table: Table, keys: seq<Key>, es: seq<Event>, asked: seq<nat>, answered: seq<nat>, maxBatch: int)
    requires IsTable(table) && IsLoadAll(table, keys, es, asked, answered, maxBatch)
    ensures forall i :: 0 <= i < |keys| ==>
              var t := ThunkAt(es, asked[i], keys[i], maxBatch);
              var r := Returned(es, asked[i], answered[i], keys[i], maxBatch);
              if t.Ready? then r == (Find(table, keys[i]), None)
              else
                && FetchOutcome(es, t.batch).Some?
                && r == LookupOrError(table, keys[i], FetchOutcome(es, t.batch).value)
    ensures forall i, j :: 0 <= i < |keys| && 0 <= j < |keys| ==>
              var t, u := ThunkAt(es, asked[i], keys[i], maxBatch), ThunkAt(es, asked[j], keys[j], maxBatch);
              var r := Returned(es, asked[i], answered[i], keys[i], maxBatch);
              var q := Returned(es, asked[j], answered[j], keys[j], maxBatch);
              t.Waiting? && u.Waiting? && t.batch == u.batch ==> r.1 == q.1 && (keys[i] == keys[j] ==> r == q)
  {
    hide IsCalled, Returned, Find, Answer, StateAt, ThunkAt, FetchOutcome, TruthfulRun;
    forall i | 0 <= i < |keys|
      ensures var t := ThunkAt(es, asked[i], keys[i], maxBatch);
              var r := Returned(es, asked[i], answered[i], keys[i], maxBatch);
              if t.Ready? then r == (Find(table, keys[i]), None)
              else
                && FetchOutcome(es, t.batch).Some?
                && r == LookupOrError(table, keys[i], FetchOutcome(es, t.batch).value)
    {
      LoadIsLookup(table, es, asked[i], answered[i], keys[i], maxBatch);
    }
  }

  /** A failed batch caches nothing: each of its thunks leaves the cache as it is. */
  lemma FailureCachesNothing(table: Table, s: State, t: Thunk, maxBatch: int)
    requires Inv(s, maxBatch) && AnswersInv(table, s) && Enabled(s, Resolve(t))
    ensures s.batches[t.batch].errors.Some? <==> Answer(s, t).1.Some?
    ensures s.batches[t.batch].errors.Some? ==> ResolveStep(s, t) == s
    ensures s.batches[t.batch].errors.None? ==> ResolveStep(s, t).cache == s.cache[t.key := Find(table, t.key)]
  {
    hide BatchInv, Find;
    AnswerIsLookup(table, s, t, maxBatch);
  }

  // ---------- The loader itself ----------

  /** The inner search of fetch: the first row for a key */
  method LookupRow(rows: seq<PublicUser>, key: Key) returns (r: Option<PublicUser>)
    ensures r == Lookup(rows, key)
  {
    assert rows[0..] == rows;
    for i := 0 to |rows|
      invariant Lookup(rows[i..], key) == Lookup(rows, key)
    {
      assert rows[i..][1..] == rows[i + 1..];
      if rows[i].id == key {
        return Some(rows[i]);
      }
    }
    return None;
  }

  /** The fetch closure: one query for all keys, and the rows realigned with them */
  method FetchModels(keys: seq<Key>, outcome: Result<seq<PublicUser>>)
    returns (data: seq<Option<PublicUser>>, errors: Option<seq<string>>)
    ensures (data, errors) == Fetched(keys, outcome)
  {
    if outcome.Err? {
      return [], Some([outcome.message]);
    }
    var models := seq(|keys|, _ => None);
    for i := 0 to |keys|
      invariant |models| == |keys| && forall j :: 0 <= j < i ==> models[j] == Lookup(outcome.value, keys[j])
    {
      var model := LookupRow(outcome.value, keys[i]);
      models := models[i := model];
    }
    assert models == Fetched(keys, outcome).0;
    return models, None;
  }

  class PublicUserLoader {
    const maxBatch: int
    var cache: map<Key, Option<PublicUser>>
    var batch: Option<nat>
    var batches: seq<Batch>
    var panicked: bool
    ghost var issued: set<Thunk>

    ghost function Current(): State
      reads this
    {
      State(cache, batch, batches, issued, panicked)
    }

    constructor (maxBatch: int)
      ensures Current() == INITIAL && this.maxBatch == maxBatch
    {
      this.maxBatch := maxBatch;
      cache := map[];
      batch := None;
      batches := [];
      panicked := false;
      issued := {};
    }

    /** The first critical section of a load */
    method LoadThunk(key: Key) returns (thunk: Thunk)
      requires WellFormed(Current())
      modifies this
      ensures (Current(), thunk) == LoadThunkStep(old(Current()), key, maxBatch)
    {
      if key in cache {
        return Ready(cache[key]);
      }
      if batch.None? {
        batches := batches + [NEW_BATCH];
        batch := Some(|batches| - 1);
      }
      var b := batch.value;
      var pos := KeyIndex(b, key);
      thunk := Waiting(b, pos, key);
      issued := issued + {thunk};
    }

    /** The location of the key in the batch; adds the key if it is not found. */
    method KeyIndex(b: nat, key: Key) returns (pos: nat)
      requires b < |batches| && batch == Some(b)
      modifies this`batches, this`batch
      ensures pos == IndexOf(old(batches[b].keys), key)
      ensures pos < |old(batches[b].keys)| ==> batches == old(batches) && batch == old(batch)
      ensures pos == |old(batches[b].keys)| ==>
                var (added, full) := AddKey(old(batches[b]), key, maxBatch);
                batches == old(batches)[b := added] && batch == if full then None else Some(b)
    {
      var keys := batches[b].keys;
      assert keys[0..] == keys;
      for i := 0 to |keys|
        invariant IndexOf(keys, key) == i + IndexOf(keys[i..], key)
      {
        assert keys[i..][1..] == keys[i + 1..];
        if key == keys[i] {
          return i;
        }
      }
      pos := |keys|;
      batches := batches[b := batches[b].(keys := keys + [key])];
      if pos == 0 {
        batches := batches[b := batches[b].(timers := batches[b].timers + 1)];
      }
      if maxBatch != 0 && pos >= maxBatch - 1 {
        if !batches[b].closing {
          batches := batches[b := batches[b].(closing := true)];
          batch := None;
          batches := batches[b := batches[b].(toFetch := batches[b].toFetch + 1)];
        }
      }
    }

    /** A timer that has slept */
    method WakeTimer(b: nat)
      requires b < |batches| && batches[b].timers > 0
      modifies this`batches, this`batch
      ensures Current() == TimerStep(old(Current()), b)
    {
      batches := batches[b := batches[b].(timers := batches[b].timers - 1)];
      if batches[b].closing {
        return;
      }
      batch := None;
      batches := batches[b := batches[b].(toFetch := batches[b].toFetch + 1)];
    }

    /** The first half of end, without the lock */
    method EndFetch(b: nat, outcome: Result<seq<PublicUser>>)
      requires b < |batches| && batches[b].toFetch > 0
      modifies this`batches
      ensures Current() == FetchStep(old(Current()), b, outcome)
    {
      var data, errors := FetchModels(batches[b].keys, outcome);
      batches := batches[b := batches[b].(data := data, errors := errors, toFetch := batches[b].toFetch - 1,
        toClose := batches[b].toClose + 1)];
    }

    /** The second half of end */
    method EndClose(b: nat)
      requires b < |batches| && batches[b].toClose > 0
      modifies this`batches, this`panicked
      ensures Current() == CloseStep(old(Current()), b)
    {
      if batches[b].closed > 0 {
        panicked := true;
      }
      batches := batches[b := batches[b].(toClose := batches[b].toClose - 1, closed := batches[b].closed + 1)];
    }

    /** Calls a thunk whose batch is done. */
    method CallThunk(thunk: Thunk) returns (data: Option<PublicUser>, error: Option<string>)
      requires thunk.Waiting? ==> thunk.batch < |batches|
      modifies this`cache
      ensures (data, error) == Answer(old(Current()), thunk)
      ensures Current() == if thunk.Waiting? then ResolveStep(old(Current()), thunk) else old(Current())
    {
      if thunk.Ready? {
        return thunk.value, None;
      }
      var b := batches[thunk.batch];
      data := None;
      if thunk.pos < |b.data| {
        data := b.data[thunk.pos];
      }
      error := None;
      if b.errors.Some? && |b.errors.value| == 1 {
        error := Some(b.errors.value[0]);
      } else if b.errors.Some? && thunk.pos < |b.errors.value| {
        error := Some(b.errors.value[thunk.pos]);
      }
      if error.None? {
        UnsafeSet(thunk.key, data);
      }
    }

    method Prime(key: Key, value: PublicUser) returns (isNew: bool)
      modifies this`cache
      ensures Current() == PrimeStep(old(Current()), key, value)
      ensures isNew <==> key !in old(cache)
    {
      var found := key in cache;
      if !found {
        UnsafeSet(key, Some(value));
      }
      return !found;
    }

    method Clear(key: Key)
      modifies this`cache
      ensures Current() == ClearStep(old(Current()), key)
    {
      cache := cache - {key};
    }

    method UnsafeSet(key: Key, value: Option<PublicUser>)
      modifies this`cache
      ensures cache == old(cache)[key := value]
    {
      cache := cache[key := value];
    }
  }
}
