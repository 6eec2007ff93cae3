/**
 * Publishing schemas to the create cache while feature flags change
 * (backend/database/database.cc, common/feature_flags.h, backend/database/schema_create_cache.cc).
 */
module CachePublish {
  import opened CacheKeys

  /** The feature flags, as the bytes of their struct. */
  type Flags = string

  datatype Snapshot = Snapshot(flags: Flags, generation: nat)

  /** What set_flags leaves: other flags, under the next generation. */
  function Moved(s: Snapshot, flags: Flags): Snapshot {
    Snapshot(flags, s.generation + 1)
  }

  /** `written` is every value the flags have had, by generation. */
  class EmulatorFeatureFlags {
    var flags: Flags
    var generation: nat
    ghost var written: seq<Flags>

    ghost predicate Valid()
      reads this
    {
      |written| == generation + 1 && written[generation] == flags
    }

    ghost function Current(): Snapshot
      reads this
    {
      Snapshot(flags, generation)
    }

    constructor (flags: Flags)
      ensures Valid() && Current() == Snapshot(flags, 0)
    {
      this.flags := flags;
      generation := 0;
      written := [flags];
    }

    /** The snapshot is of flags this object has had, under the generation of their write. */
    ghost predicate Took(s: Snapshot)
      reads this
    {
      s.generation < |written| && written[s.generation] == s.flags
    }

    method TakeSnapshot() returns (s: Snapshot)
      requires Valid()
      ensures s == Current() && Took(s) && s.generation + 1 == |written|
    {
      s := Snapshot(flags, generation);
    }

    /** Nothing that was written is forgotten, so earlier snapshots stay taken. */
    method SetFlags(flags: Flags)
      requires Valid()
      modifies this
      ensures Valid() && Current() == Moved(old(Current()), flags) && written == old(written) + [flags]
    {
      this.flags := flags;
      generation := generation + 1;
      written := written + [flags];
    }

    /** SettingsUnchanged: whether the snapshot's write is still the last one, also when the same flags came back. */
    method Unchanged(before: Snapshot) returns (same: bool)
      requires Valid() && Took(before)
      ensures same <==> before.generation + 1 == |written|
      ensures same <==> before == Current()
    {
      var now := TakeSnapshot();
      same := now.generation == before.generation && now.flags == before.flags;
    }
  }

  /** What a create request processes: the dialect, the proto descriptors and the statements. */
  datatype Create = Create(dialect: nat, descriptors: string, statements: seq<string>)

  /** The command line flags in the settings; they do not change. */
  datatype Environment = Environment(names: seq<string>, values: seq<string>) {
    predicate Valid() {
      |names| == |values|
    }

    /** The cache key of a request under given feature flags. */
    function Key(create: Create, flags: Flags): string
      requires Valid()
    {
      KeyOf(Request(create.dialect, SettingsString(names, Settings(flags, values)), create.descriptors,
                    create.statements))
    }
  }

  /** One key is the key of one request under one set of flags. */
  lemma KeyNamesOne(env: Environment, a: Create, b: Create, f: Flags, g: Flags)
    requires env.Valid() && env.Key(a, f) == env.Key(b, g)
    ensures a == b && f == g
  {
    hide KeyOf, SettingsString;
    var sf, sg := Settings(f, env.values), Settings(g, env.values);
    KeyIsInjective(env.names, Request(a.dialect, SettingsString(env.names, sf), a.descriptors, a.statements),
                   Request(b.dialect, SettingsString(env.names, sg), b.descriptors, b.statements), sf, sg);
  }

  type Schema = string

  /** Processing a request: a function of the request and of the flags as they were at each read. */
  type Process = (Create, seq<Flags>) -> Schema

  /** `observed` is the history of the flags read while the schema was built. */
  datatype Entry = Entry(schema: Schema, observed: seq<Flags>)

  datatype Pc =
    | Idle
    | Keyed(create: Create, settings: Snapshot, key: string)
    | Building(create: Create, settings: Snapshot, key: string, publish: bool, observed: seq<Flags>)
    | Built(create: Create, settings: Snapshot, key: string, publish: bool, entry: Entry)
    | Publishing(create: Create, settings: Snapshot, key: string, entry: Entry)
    | Served(create: Create, settings: Snapshot, key: string, entry: Entry)

  /** `current` is what the feature flags object holds. */
  datatype State = State(current: Snapshot, cache: map<string, Entry>, creators: seq<Pc>)

  datatype Action =
    | SetFlags(flags: Flags)
    | Evict(key: string)
    | Begin(p: nat, create: Create)       // CurrentSettings and Key
    | Hit(p: nat)                         // Lookup, and the copy of the cached schema
    | Fallback(p: nat)                    // Lookup, and a copy that fails
    | Miss(p: nat)                        // Lookup
    | ReadFlags(p: nat)                   // one read of the flags while processing the statements
    | Finish(p: nat)
    | Check(p: nat)                       // SettingsUnchanged
    | Publish(p: nat)                     // Insert
    | End(p: nat)

  function Init(flags: Flags, n: nat): State {
    State(Snapshot(flags, 0), map[], seq(n, i => Idle))
  }

  predicate Enabled(s: State, a: Action) {
    match a
    case SetFlags(_) => true
    case Evict(_) => true
    case Begin(p, _) => p < |s.creators| && s.creators[p].Idle?
    case Hit(p) => p < |s.creators| && s.creators[p].Keyed? && s.creators[p].key in s.cache
    case Fallback(p) => p < |s.creators| && s.creators[p].Keyed? && s.creators[p].key in s.cache
    case Miss(p) => p < |s.creators| && s.creators[p].Keyed? && s.creators[p].key !in s.cache
    case ReadFlags(p) => p < |s.creators| && s.creators[p].Building?
    case Finish(p) => p < |s.creators| && s.creators[p].Building?
    case Check(p) => p < |s.creators| && s.creators[p].Built?
    case Publish(p) => p < |s.creators| && s.creators[p].Publishing?
    case End(p) => p < |s.creators| && s.creators[p].Served?
  }

  function Go(s: State, p: nat, pc: Pc): State
    requires p < |s.creators|
  {
    s.(creators := s.creators[p := pc])
  }

  function Do(env: Environment, process: Process, s: State, a: Action): State
    requires env.Valid() && Enabled(s, a)
  {
    match a
    case SetFlags(flags) => s.(current := Moved(s.current, flags))
    case Evict(key) => s.(cache := s.cache - {key})
    case Begin(p, create) => Go(s, p, Keyed(create, s.current, env.Key(create, s.current.flags)))
    case Hit(p) => var pc := s.creators[p]; Go(s, p, Served(pc.create, pc.settings, pc.key, s.cache[pc.key]))
    case Fallback(p) => var pc := s.creators[p]; Go(s, p, Building(pc.create, pc.settings, pc.key, false, []))
    case Miss(p) => var pc := s.creators[p]; Go(s, p, Building(pc.create, pc.settings, pc.key, true, []))
    case ReadFlags(p) => var pc := s.creators[p]; Go(s, p, pc.(observed := pc.observed + [s.current.flags]))
    case Finish(p) =>
      var pc := s.creators[p];
      Go(s, p, Built(pc.create, pc.settings, pc.key, pc.publish, Entry(process(pc.create, pc.observed), pc.observed)))
    case Check(p) =>
      var pc := s.creators[p];
      if pc.publish && s.current == pc.settings then Go(s, p, Publishing(pc.create, pc.settings, pc.key, pc.entry))
      else Go(s, p, Idle)
    case Publish(p) => var pc := s.creators[p]; Go(s.(cache := s.cache[pc.key := pc.entry]), p, Idle)
    case End(p) => Go(s, p, Idle)
  }

  predicate AllSaw(observed: seq<Flags>, flags: Flags) {
    forall i :: 0 <= i < |observed| ==> observed[i] == flags
  }

  /** The entry is the result of processing the request with every read of the flags seeing `flags`. */
  ghost predicate Right(process: Process, create: Create, flags: Flags, entry: Entry) {
    entry.schema == process(create, entry.observed) && AllSaw(entry.observed, flags)
  }

  /**
   * The generation has not moved since the snapshot only if the flags are still the snapshot's, and
   * were at every read.
   */
  ghost predicate Unmoved(s: State, settings: Snapshot, observed: seq<Flags>) {
    && settings.generation <= s.current.generation
    && (settings.generation == s.current.generation ==> s.current == settings && AllSaw(observed, settings.flags))
  }

  ghost predicate CreatorOk(env: Environment, process: Process, s: State, pc: Pc)
    requires env.Valid()
  {
    (!pc.Idle? ==> pc.key == env.Key(pc.create, pc.settings.flags)) &&
    match pc
    case Idle => true
    case Keyed(_, settings, _) => Unmoved(s, settings, [])
    case Building(_, settings, _, _, observed) => Unmoved(s, settings, observed)
    case Built(create, settings, _, _, entry) =>
      Unmoved(s, settings, entry.observed) && entry.schema == process(create, entry.observed)
    case Publishing(create, settings, _, entry) => Right(process, create, settings.flags, entry)
    case Served(create, settings, _, entry) => Right(process, create, settings.flags, entry)
  }

  /** Whatever request and flags have the key of a cached entry, the entry is right for them. */
  ghost predicate CacheOk(env: Environment, process: Process, cache: map<string, Entry>)
    requires env.Valid()
  {
    forall create, flags :: env.Key(create, flags) in cache ==>
      Right(process, create, flags, cache[env.Key(create, flags)])
  }

  ghost predicate Inv(env: Environment, process: Process, s: State)
    requires env.Valid()
  {
    CacheOk(env, process, s.cache) && forall p :: 0 <= p < |s.creators| ==> CreatorOk(env, process, s, s.creators[p])
  }

  /** An entry published under its own key is right for whoever looks that key up. */
  lemma PublishedIsRight(env: Environment, process: Process, cache: map<string, Entry>, create: Create, flags: Flags,
                         entry: Entry)
    requires env.Valid() && CacheOk(env, process, cache) && Right(process, create, flags, entry)
    ensures CacheOk(env, process, cache[env.Key(create, flags) := entry])
  {
    hide Environment.Key, Right;
    var more := cache[env.Key(create, flags) := entry];
    forall c, f | env.Key(c, f) in more ensures Right(process, c, f, more[env.Key(c, f)]) {
      if env.Key(c, f) == env.Key(create, flags) {
        KeyNamesOne(env, c, create, f, flags);
      }
    }
  }

  lemma StepKeeps(env: Environment, process: Process, s: State, a: Action)
    requires env.Valid() && Inv(env, process, s) && Enabled(s, a)
    ensures Inv(env, process, Do(env, process, s, a))
  {
    hide Environment.Key;
    var s' := Do(env, process, s, a);
    forall p | 0 <= p < |s'.creators| ensures CreatorOk(env, process, s', s'.creators[p]) {
      assert CreatorOk(env, process, s, s.creators[p]);
    }
    if a.Publish? {
      var pc := s.creators[a.p];
      assert CreatorOk(env, process, s, pc);
      PublishedIsRight(env, process, s.cache, pc.create, pc.settings.flags, pc.entry);
    }
  }

  ghost predicate Legal(env: Environment, process: Process, s: State, run: seq<Action>)
    requires env.Valid()
    decreases |run|
  {
    run != [] ==> Enabled(s, run[0]) && Legal(env, process, Do(env, process, s, run[0]), run[1..])
  }

  ghost function After(env: Environment, process: Process, s: State, run: seq<Action>): State
    requires env.Valid() && Legal(env, process, s, run)
    decreases |run|
  {
    if run == [] then s else After(env, process, Do(env, process, s, run[0]), run[1..])
  }

  lemma {:induction false} RunKeeps(env: Environment, process: Process, s: State, run: seq<Action>)
    requires env.Valid() && Inv(env, process, s) && Legal(env, process, s, run)
    ensures Inv(env, process, After(env, process, s, run))
    decreases |run|
  {
    hide Inv, Enabled, Do;
    if run != [] {
      StepKeeps(env, process, s, run[0]);
      RunKeeps(env, process, Do(env, process, s, run[0]), run[1..]);
    }
  }

  /**
   * In every run, with flags set at any moment: the entry found under the key of a
   * request and flags, and every schema served from the cache, is the result of
   * processing the request with all reads of the flags seeing those flags.
   */
  lemma PublishIsSafe(env: Environment, process: Process, flags: Flags, n: nat, run: seq<Action>)
    requires env.Valid() && Legal(env, process, Init(flags, n), run)
    ensures var s := After(env, process, Init(flags, n), run);
      && (forall create, f :: env.Key(create, f) in s.cache ==> Right(process, create, f, s.cache[env.Key(create, f)]))
      && (forall p :: 0 <= p < |s.creators| && s.creators[p].Served? ==>
            Right(process, s.creators[p].create, s.creators[p].settings.flags, s.creators[p].entry))
  {
    hide Right, Legal, After, Environment.Key;
    RunKeeps(env, process, Init(flags, n), run);
    var s := After(env, process, Init(flags, n), run);
    forall p | 0 <= p < |s.creators| && s.creators[p].Served?
      ensures Right(process, s.creators[p].create, s.creators[p].settings.flags, s.creators[p].entry)
    {
      assert CreatorOk(env, process, s, s.creators[p]);
    }
  }

  /**
   * A change that is undone before the check: the flags are the snapshot's again,
   * a read saw others, and the generation is what keeps the schema out of the cache.
   */
  lemma UndoneChangeIsRejected(env: Environment, process: Process, a: Flags, b: Flags, create: Create)
    returns (run: seq<Action>, s: State)
    requires env.Valid() && a != b
    ensures Legal(env, process, Init(a, 1), run) && s == After(env, process, Init(a, 1), run) && |s.creators| == 1
    ensures s.creators[0].Built? && s.creators[0].publish && s.current.flags == s.creators[0].settings.flags
    ensures !AllSaw(s.creators[0].entry.observed, s.current.flags)
    ensures Do(env, process, s, Check(0)).creators[0] == Idle
  {
    hide Legal, After, Environment.Key;
    var start, settings, key := Init(a, 1), Snapshot(a, 0), env.Key(create, a);
    assert start == State(settings, map[], [Idle]);
    run := [];
    Nothing(env, process, start);
    Then(env, process, start, run, Begin(0, create));
    run := run + [Begin(0, create)];
    assert After(env, process, start, run) == State(settings, map[], [Keyed(create, settings, key)]);
    Then(env, process, start, run, Miss(0));
    run := run + [Miss(0)];
    assert After(env, process, start, run) == State(settings, map[], [Building(create, settings, key, true, [])]);
    Then(env, process, start, run, SetFlags(b));
    run := run + [SetFlags(b)];
    Then(env, process, start, run, ReadFlags(0));
    run := run + [ReadFlags(0)];
    assert [] + [b] == [b];
    assert After(env, process, start, run) ==
           State(Snapshot(b, 1), map[], [Building(create, settings, key, true, [b])]);
    Then(env, process, start, run, SetFlags(a));
    run := run + [SetFlags(a)];
    Then(env, process, start, run, Finish(0));
    run := run + [Finish(0)];
    s := After(env, process, start, run);
    assert s == State(Snapshot(a, 2), map[], [Built(create, settings, key, true, Entry(process(create, [b]), [b]))]);
    assert s.creators[0].entry.observed[0] == b;
  }

  lemma Nothing(env: Environment, process: Process, s: State)
    requires env.Valid()
    ensures Legal(env, process, s, []) && After(env, process, s, []) == s
  {
  }

  lemma {:induction false} Then(env: Environment, process: Process, s: State, run: seq<Action>, a: Action)
    requires env.Valid() && Legal(env, process, s, run) && Enabled(After(env, process, s, run), a)
    ensures Legal(env, process, s, run + [a])
    ensures After(env, process, s, run + [a]) == Do(env, process, After(env, process, s, run), a)
    decreases |run|
  {
    hide Enabled, Do;
    if run == [] {
      assert run + [a] == [a] && [a][1..] == [];
    } else {
      Then(env, process, Do(env, process, s, run[0]), run[1..], a);
      assert (run + [a])[1..] == run[1..] + [a];
    }
  }

  // ---------------------------------------------------------------------------
  // What is published, and found again
  // ---------------------------------------------------------------------------

  ghost predicate Reaches(env: Environment, process: Process, s: State, s': State)
    requires env.Valid()
  {
    exists run :: Legal(env, process, s, run) && After(env, process, s, run) == s'
  }

  lemma ReachesNext(env: Environment, process: Process, s: State, s': State, a: Action)
    requires env.Valid() && Reaches(env, process, s, s') && Enabled(s', a)
    ensures Reaches(env, process, s, Do(env, process, s', a))
  {
    hide Legal, After, Do, Enabled;
    var run :| Legal(env, process, s, run) && After(env, process, s, run) == s';
    Then(env, process, s, run, a);
  }

  /** A creator that finds nothing starts to process, under the flags of the moment. */
  lemma StartsBuilding(env: Environment, process: Process, s: State, p: nat, create: Create)
    requires env.Valid() && p < |s.creators| && s.creators[p].Idle? && env.Key(create, s.current.flags) !in s.cache
    ensures Reaches(env, process, s, Go(s, p, Building(create, s.current, env.Key(create, s.current.flags), true, [])))
  {
    hide Legal, After, Environment.Key;
    Nothing(env, process, s);
    var key := env.Key(create, s.current.flags);
    var s1 := Go(s, p, Keyed(create, s.current, key));
    ReachesNext(env, process, s, s, Begin(p, create));
    ReachesNext(env, process, s, s1, Miss(p));
    assert Do(env, process, s1, Miss(p)) == Go(s, p, Building(create, s.current, key, true, []));
  }

  lemma {:induction false} ReadsOn(env: Environment, process: Process, s: State, s': State, p: nat, n: nat)
    requires env.Valid() && p < |s'.creators| && s'.creators[p].Building? && Reaches(env, process, s, s')
    ensures Reaches(env, process, s, Go(s', p, s'.creators[p].(observed := s'.creators[p].observed +
                                                                  seq(n, i => s'.current.flags))))
  {
    hide Legal, After, Reaches;
    var pc, flags := s'.creators[p], s'.current.flags;
    var seen := pc.observed + seq(n, i => flags);
    if n == 0 {
      assert seen == pc.observed;
      assert Go(s', p, pc) == s';
    } else {
      ReadsOn(env, process, s, s', p, n - 1);
      var before := pc.observed + seq(n - 1, i => flags);
      var s1 := Go(s', p, pc.(observed := before));
      ReachesNext(env, process, s, s1, ReadFlags(p));
      assert before + [flags] == seen;
      assert Do(env, process, s1, ReadFlags(p)) == Go(s', p, pc.(observed := seen));
    }
  }

  /**
   * A create that finds nothing, with the flags left alone however often they are read,
   * ends with what processing gave in the cache, under its key; nothing else changes there.
   */
  lemma UnchangedIsPublished(env: Environment, process: Process, s: State, p: nat, create: Create, n: nat)
    requires env.Valid() && p < |s.creators| && s.creators[p].Idle? && env.Key(create, s.current.flags) !in s.cache
    ensures var seen := seq(n, i => s.current.flags);
      Reaches(env, process, s,
              s.(cache := s.cache[env.Key(create, s.current.flags) := Entry(process(create, seen), seen)]))
  {
    hide Legal, After, Reaches, Environment.Key;
    var key, seen := env.Key(create, s.current.flags), seq(n, i => s.current.flags);
    StartsBuilding(env, process, s, p, create);
    var s1 := Go(s, p, Building(create, s.current, key, true, []));
    ReadsOn(env, process, s, s1, p, n);
    assert [] + seen == seen;
    var s2 := Go(s, p, Building(create, s.current, key, true, seen));
    assert Go(s1, p, s1.creators[p].(observed := seen)) == s2;
    var entry := Entry(process(create, seen), seen);
    ReachesNext(env, process, s, s2, Finish(p));
    var s3 := Go(s, p, Built(create, s.current, key, true, entry));
    assert Do(env, process, s2, Finish(p)) == s3;
    ReachesNext(env, process, s, s3, Check(p));
    var s4 := Go(s, p, Publishing(create, s.current, key, entry));
    assert Do(env, process, s3, Check(p)) == s4;
    ReachesNext(env, process, s, s4, Publish(p));
    assert s.creators[p := Idle] == s.creators;
    assert Do(env, process, s4, Publish(p)) == s.(cache := s.cache[key := entry]);
  }

  /** And the next create of the same request under the same flags is served that. */
  lemma PublishedIsServed(env: Environment, process: Process, s: State, p: nat, create: Create)
    requires env.Valid() && p < |s.creators| && s.creators[p].Idle? && env.Key(create, s.current.flags) in s.cache
    ensures var key := env.Key(create, s.current.flags);
      Reaches(env, process, s, Go(s, p, Served(create, s.current, key, s.cache[key])))
  {
    hide Legal, After, Environment.Key;
    Nothing(env, process, s);
    var key := env.Key(create, s.current.flags);
    var s1 := Go(s, p, Keyed(create, s.current, key));
    ReachesNext(env, process, s, s, Begin(p, create));
    ReachesNext(env, process, s, s1, Hit(p));
    assert Do(env, process, s1, Hit(p)) == Go(s, p, Served(create, s.current, key, s.cache[key]));
  }
}
