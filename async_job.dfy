/**
 * The job abstraction: a job keeps the controller-side objects its task needs reachable
 * (`persist`), runs its task body either inline or on a worker, and delivers the result, the
 * error and the progress events back to the controller.
 *
 * The job's main function (`main`/`doit`) is foreign code; it is represented by the outcome it produces,
 * an `Attempt`. The result converter (`rval`) is a function parameter.
 */
module AsyncJob {
  import opened Wrappers

  // ---------------------------------------------------------------------------------------------
  // Decimal keys
  // ---------------------------------------------------------------------------------------------

  function DigitChar(d: nat): (c: char)
    requires d < 10
    ensures '0' <= c <= '9'
  {
    ('0' as int + d) as char
  }

  predicate IsDigits(s: string)
  {
    forall i :: 0 <= i < |s| ==> '0' <= s[i] <= '9'
  }

  /** The decimal spelling of `n` without leading zeros, as `std::to_string` prints an unsigned. */
  function NatToString(n: nat): (s: string)
    decreases n
    ensures |s| >= 1 && IsDigits(s)
    ensures n >= 1 ==> s[0] != '0'
    ensures |s| == 1 <==> n < 10
  {
    if n < 10 then [DigitChar(n)] else NatToString(n / 10) + [DigitChar(n % 10)]
  }

  /** The value of a string of decimal digits. */
  function DecimalValue(s: string): nat
    requires IsDigits(s)
  {
    if s == [] then 0 else DecimalValue(s[..|s| - 1]) * 10 + (s[|s| - 1] as int - '0' as int)
  }

  lemma {:induction false} DecimalRoundTrip(n: nat)
    ensures DecimalValue(NatToString(n)) == n
    decreases n
  {
    var s := NatToString(n);
    if n >= 10 {
      DecimalRoundTrip(n / 10);
      assert s[..|s| - 1] == NatToString(n / 10);
    }
  }

  /** Distinct indices give distinct keys, so automatic keys never collide with each other. */
  lemma NatToStringInjective(a: nat, b: nat)
    ensures NatToString(a) == NatToString(b) ==> a == b
  {
    DecimalRoundTrip(a);
    DecimalRoundTrip(b);
  }

  // ---------------------------------------------------------------------------------------------
  // Persisted objects
  // ---------------------------------------------------------------------------------------------

  /** `autoIndex` is an `unsigned`: it counts modulo 2^32. */
  const UnsignedRange: nat := 0x1_0000_0000

  /** What `persist` manipulates: the key to object map and the next automatic index. */
  datatype PersistState = PersistState(persistent: map<string, JsObject>, autoIndex: nat)

  /** One unkeyed persist: store under the decimal spelling of the index, then bump the index. */
  function PersistAuto(st: PersistState, obj: JsObject): (r: PersistState)
    ensures r.persistent == st.persistent[NatToString(st.autoIndex) := obj]
    ensures st.autoIndex < UnsignedRange ==> r.autoIndex < UnsignedRange
    ensures st.autoIndex + 1 < UnsignedRange ==> r.autoIndex == st.autoIndex + 1
    ensures st.autoIndex + 1 == UnsignedRange ==> r.autoIndex == 0
  {
    PersistState(st.persistent[NatToString(st.autoIndex) := obj], (st.autoIndex + 1) % UnsignedRange)
  }

  /** A run of unkeyed persists, in argument order. */
  function PersistSeq(st: PersistState, objs: seq<JsObject>): PersistState
    decreases |objs|
  {
    if objs == [] then st else PersistSeq(PersistAuto(st, objs[0]), objs[1..])
  }

  /** The keys `n` unkeyed persists starting at index `from` use. */
  function AutoKeys(from: nat, n: nat): set<string>
  {
    set j | from <= j < from + n :: NatToString(j)
  }

  /** The first key of a run, and the keys of the rest of it, which never include the first. */
  lemma AutoKeysSplit(from: nat, n: nat)
    requires n >= 1
    ensures AutoKeys(from, n) == {NatToString(from)} + AutoKeys(from + 1, n - 1)
    ensures NatToString(from) !in AutoKeys(from + 1, n - 1)
  {
    forall k | k in AutoKeys(from, n)
      ensures k in {NatToString(from)} + AutoKeys(from + 1, n - 1)
    {
      var j :| from <= j < from + n && k == NatToString(j);
      if j > from { assert NatToString(j) in AutoKeys(from + 1, n - 1); }
    }
    if NatToString(from) in AutoKeys(from + 1, n - 1) {
      var j :| from + 1 <= j < from + n && NatToString(from) == NatToString(j);
      NatToStringInjective(j, from);
    }
  }

  /** `n` unkeyed persists (without wrapping) advance the index by `n`. */
  lemma {:induction false} PersistSeqIndex(st: PersistState, objs: seq<JsObject>)
    requires st.autoIndex + |objs| < UnsignedRange
    ensures PersistSeq(st, objs).autoIndex == st.autoIndex + |objs|
    decreases |objs|
  {
    if objs != [] {
      PersistSeqIndex(PersistAuto(st, objs[0]), objs[1..]);
    }
  }

  /** They add exactly the keys of the run, and change no other key. */
  lemma {:induction false} PersistSeqKeys(st: PersistState, objs: seq<JsObject>)
    requires st.autoIndex + |objs| < UnsignedRange
    ensures PersistSeq(st, objs).persistent.Keys == st.persistent.Keys + AutoKeys(st.autoIndex, |objs|)
    ensures forall k :: k in st.persistent && k !in AutoKeys(st.autoIndex, |objs|) ==>
      PersistSeq(st, objs).persistent[k] == st.persistent[k]
    decreases |objs|
  {
    if objs == [] {
      assert AutoKeys(st.autoIndex, 0) == {};
    } else {
      var next := PersistAuto(st, objs[0]);
      PersistSeqKeys(next, objs[1..]);
      AutoKeysSplit(st.autoIndex, |objs|);
    }
  }

  /** The j-th object of the run sits under the decimal key of `from + j`. */
  lemma {:induction false} PersistSeqValueAt(st: PersistState, objs: seq<JsObject>, j: nat)
    requires st.autoIndex + |objs| < UnsignedRange
    requires j < |objs|
    ensures NatToString(st.autoIndex + j) in PersistSeq(st, objs).persistent
    ensures PersistSeq(st, objs).persistent[NatToString(st.autoIndex + j)] == objs[j]
    decreases |objs|
  {
    var next := PersistAuto(st, objs[0]);
    assert PersistSeq(st, objs) == PersistSeq(next, objs[1..]);
    if j == 0 {
      PersistSeqKeys(next, objs[1..]);
      AutoKeysSplit(st.autoIndex, |objs|);
    } else {
      PersistSeqValueAt(next, objs[1..], j - 1);
    }
  }

  /** The job's persistence bookkeeping: the objects to keep reachable, by key. */
  class AsyncableJob {
    var persistent: map<string, JsObject>
    var autoIndex: nat

    ghost predicate Valid()
      reads this
    {
      autoIndex < UnsignedRange
    }

    function State(): PersistState
      reads this
    {
      PersistState(persistent, autoIndex)
    }

    constructor ()
      ensures Valid() && persistent == map[] && autoIndex == 0
    {
      persistent := map[];
      autoIndex := 0;
    }

    /** Keyed persist: set or overwrite one key; the automatic index is untouched. */
    method PersistKey(key: string, obj: JsObject)
      requires Valid()
      modifies this
      ensures Valid()
      ensures persistent == old(persistent)[key := obj] && autoIndex == old(autoIndex)
    {
      persistent := persistent[key := obj];
    }

    /** Unkeyed persist: the key is the current automatic index, which then advances by one. */
    method Persist(obj: JsObject)
      requires Valid()
      modifies this
      ensures Valid()
      ensures State() == PersistAuto(old(State()), obj)
    {
      persistent := persistent[NatToString(autoIndex) := obj];
      autoIndex := (autoIndex + 1) % UnsignedRange;
    }

    /** The two-object form is two unkeyed persists in argument order. */
    method PersistPair(obj1: JsObject, obj2: JsObject)
      requires Valid()
      modifies this
      ensures Valid()
      ensures State() == PersistSeq(old(State()), [obj1, obj2])
    {
      ghost var before := State();
      Persist(obj1);
      ghost var middle := State();
      Persist(obj2);
      assert [obj1, obj2][1..] == [obj2] && [obj2][1..] == [];
      assert PersistSeq(before, [obj1, obj2]) == PersistSeq(middle, [obj2]);
    }

    /** The vector form is one unkeyed persist per element, in order. */
    method PersistAll(objs: seq<JsObject>)
      requires Valid()
      modifies this
      ensures Valid()
      ensures State() == PersistSeq(old(State()), objs)
    {
      var i := 0;
      while i < |objs|
        invariant 0 <= i <= |objs|
        invariant Valid()
        invariant PersistSeq(State(), objs[i..]) == PersistSeq(old(State()), objs)
      {
        assert objs[i..][1..] == objs[i + 1..];
        Persist(objs[i]);
        i := i + 1;
      }
    }

    /**
     * The queued branch of `run`: hand the job's main function, the converter and a copy of the persisted
     * objects to a fresh worker (the worker's result slot starts at `initialRaw`).
     */
    method RunAsync<R, V>(main: Attempt<R>, rval: (R, map<string, JsObject>) -> V, initialRaw: R)
      returns (w: AsyncWorker<R, V>)
      ensures fresh(w)
      ensures w.doit == main && w.rval == rval && w.persistent == persistent
      ensures w.raw == initialRaw && w.errorMessage == None
    {
      w := new AsyncWorker(main, rval, persistent, initialRaw);
    }
  }

  // ---------------------------------------------------------------------------------------------
  // Running a job and delivering its outcome
  // ---------------------------------------------------------------------------------------------

  /** What a task body does: return an intermediate value or throw a message. */
  datatype Attempt<R> = Returned(value: R) | Threw(message: string)

  /**
   * The inline branch of `run`: the converter sees the body's value and the persisted objects;
   * a thrown message becomes the thrown JavaScript error and the converter is not consulted.
   */
  function RunSync<R, V>(main: Attempt<R>, rval: (R, map<string, JsObject>) -> V, persistent: map<string, JsObject>): (r: Result<V>)
    ensures r.Ok? <==> main.Returned?
    ensures main.Returned? ==> r.value == rval(main.value, persistent)
    ensures main.Threw? ==> r.error == main.message
  {
    match main
    case Returned(v) => Ok(rval(v, persistent))
    case Threw(m) => Err(m)
  }

  /** The arguments of one callback invocation. */
  datatype CallbackArg<V> = NullArg | ValueArg(value: V) | ErrorArg(message: string)

  /** The worker's state after its task body ran: a stored result, or a recorded error message. */
  function Executed<R>(doit: Attempt<R>, raw: R, errorMessage: Option<string>): (r: (R, Option<string>))
    ensures doit.Returned? ==> r == (doit.value, errorMessage)
    ensures doit.Threw? ==> r == (raw, Some(doit.message))
  {
    match doit
    case Returned(v) => (v, errorMessage)
    case Threw(m) => (raw, Some(m))
  }

  /** A queued job's worker. */
  class AsyncWorker<R, V> {
    const doit: Attempt<R>
    const rval: (R, map<string, JsObject>) -> V
    const persistent: map<string, JsObject>
    var raw: R
    var errorMessage: Option<string>

    constructor (doit: Attempt<R>, rval: (R, map<string, JsObject>) -> V, objects: map<string, JsObject>, initialRaw: R)
      ensures this.doit == doit && this.rval == rval && persistent == objects
      ensures raw == initialRaw && errorMessage == None
    {
      this.doit := doit;
      this.rval := rval;
      persistent := objects;
      raw := initialRaw;
      errorMessage := None;
    }

    /** Run the job's main function: keep its value in `raw`, or record its message and leave `raw` alone. */
    method Execute()
      modifies this
      ensures (raw, errorMessage) == Executed(doit, old(raw), old(errorMessage))
    {
      match doit
      case Returned(v) => raw := v;
      case Threw(m) => errorMessage := Some(m);
    }

    /** Success: the callback receives exactly two arguments, null and the converted result. */
    method HandleOKCallback() returns (argv: seq<CallbackArg<V>>)
      ensures |argv| == 2 && argv[0] == NullArg
      ensures argv[1] == ValueArg(rval(raw, persistent))
    {
      argv := [NullArg, ValueArg(rval(raw, persistent))];
    }

    /** Failure: the callback receives exactly one argument, an error carrying the message. */
    method HandleErrorCallback() returns (argv: seq<CallbackArg<V>>)
      requires errorMessage.Some?
      ensures argv == [ErrorArg(errorMessage.value)]
    {
      argv := [ErrorArg(errorMessage.value)];
    }
  }

  /**
   * Both execution modes deliver the same outcome: a body that returns makes a fresh worker
   * hold the value the inline run converts and records no error; a body that throws makes the
   * worker record exactly the message the inline run throws.
   */
  lemma QueuedMatchesInline<R, V>(main: Attempt<R>, rval: (R, map<string, JsObject>) -> V, persistent: map<string, JsObject>, initialRaw: R)
    ensures var (raw, err) := Executed(main, initialRaw, None);
      && (RunSync(main, rval, persistent).Ok? <==> err.None?)
      && (RunSync(main, rval, persistent).Ok? ==> RunSync(main, rval, persistent).value == rval(raw, persistent))
      && (RunSync(main, rval, persistent).Err? ==> err == Some(RunSync(main, rval, persistent).error))
  {
  }

  // ---------------------------------------------------------------------------------------------
  // Progress delivery
  // ---------------------------------------------------------------------------------------------

  /** One progress event: the completed fraction (an opaque payload here) and a message. */
  datatype ProgressInfo = ProgressInfo(complete: real, message: string)

  /**
   * One delivery round on the controller thread, given the queued burst (`data`, null or an
   * array of at least `count` events): nothing for an empty or spurious round, otherwise one
   * call carrying the last event of the burst.
   */
  function HandleProgressCallback(data: Option<seq<ProgressInfo>>, count: nat): (calls: seq<ProgressInfo>)
    requires data.Some? ==> count <= |data.value|
    ensures data.None? || count == 0 ==> calls == []
    ensures data.Some? && count > 0 ==> |calls| == 1 && calls[0] == data.value[count - 1]
  {
    if data.None? || count == 0 then [] else [data.value[count - 1]]
  }

  /** Everything the progress callback receives when the events arrive in the given bursts. */
  function Deliveries(bursts: seq<seq<ProgressInfo>>): seq<ProgressInfo>
  {
    if bursts == [] then []
    else
      var last := bursts[|bursts| - 1];
      Deliveries(bursts[..|bursts| - 1]) + HandleProgressCallback(Some(last), |last|)
  }

  /** All events the job's main function generated, in order. */
  function Flatten(bursts: seq<seq<ProgressInfo>>): seq<ProgressInfo>
  {
    if bursts == [] then [] else Flatten(bursts[..|bursts| - 1]) + bursts[|bursts| - 1]
  }

  function NonEmptyBursts(bursts: seq<seq<ProgressInfo>>): nat
  {
    if bursts == [] then 0 else NonEmptyBursts(bursts[..|bursts| - 1]) + (if bursts[|bursts| - 1] == [] then 0 else 1)
  }

  /** One delivery per non-empty burst, and never more than the events generated. */
  lemma {:induction false} DeliveriesCount(bursts: seq<seq<ProgressInfo>>)
    ensures |Deliveries(bursts)| == NonEmptyBursts(bursts) <= |Flatten(bursts)|
  {
    if bursts != [] {
      DeliveriesCount(bursts[..|bursts| - 1]);
    }
  }

  /** Some burst of two or more events makes the deliveries strictly fewer than the events. */
  lemma {:induction false} DeliveriesFewer(bursts: seq<seq<ProgressInfo>>, i: nat)
    requires i < |bursts| && |bursts[i]| >= 2
    ensures |Deliveries(bursts)| < |Flatten(bursts)|
  {
    var init := bursts[..|bursts| - 1];
    if i < |bursts| - 1 {
      assert init[i] == bursts[i];
      DeliveriesFewer(init, i);
      DeliveriesCount(bursts);
    } else {
      DeliveriesCount(init);
    }
  }

  /** Every delivered event was generated. */
  lemma {:induction false} DeliveriesGenerated(bursts: seq<seq<ProgressInfo>>)
    ensures forall e :: e in Deliveries(bursts) ==> e in Flatten(bursts)
  {
    if bursts != [] {
      DeliveriesGenerated(bursts[..|bursts| - 1]);
    }
  }

  /** The last delivery is the last event generated. */
  lemma {:induction false} DeliveriesLast(bursts: seq<seq<ProgressInfo>>)
    ensures |Flatten(bursts)| > 0 ==>
      |Deliveries(bursts)| > 0 && Deliveries(bursts)[|Deliveries(bursts)| - 1] == Flatten(bursts)[|Flatten(bursts)| - 1]
  {
    if bursts != [] {
      DeliveriesLast(bursts[..|bursts| - 1]);
    }
  }

  /**
   * Coalescing: one delivery per non-empty burst, never more than the events generated, and
   * strictly fewer once some burst holds two or more; every delivered event was generated, and
   * the last delivery is the last event generated.
   */
  lemma CoalescingDelivers(bursts: seq<seq<ProgressInfo>>)
    ensures |Deliveries(bursts)| == NonEmptyBursts(bursts) <= |Flatten(bursts)|
    ensures (exists i :: 0 <= i < |bursts| && |bursts[i]| >= 2) ==> |Deliveries(bursts)| < |Flatten(bursts)|
    ensures forall e :: e in Deliveries(bursts) ==> e in Flatten(bursts)
    ensures |Flatten(bursts)| > 0 ==>
      |Deliveries(bursts)| > 0 && Deliveries(bursts)[|Deliveries(bursts)| - 1] == Flatten(bursts)[|Flatten(bursts)| - 1]
  {
    DeliveriesCount(bursts);
    if exists i :: 0 <= i < |bursts| && |bursts[i]| >= 2 {
      var i :| 0 <= i < |bursts| && |bursts[i]| >= 2;
      DeliveriesFewer(bursts, i);
    }
    DeliveriesGenerated(bursts);
    DeliveriesLast(bursts);
  }
}
