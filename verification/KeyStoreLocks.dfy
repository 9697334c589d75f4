/**
 The key store under concurrent use, one lock acquisition at a time
 (pkg/keystore/keystore.go): a load inserts each key under its own write lock, and
 `SetActiveKey` checks under a read lock and sets under a later write lock.
 */
module KeyStoreLocks {
  import opened Wrappers
  import opened KeyStore

  type Thread = nat

  /** Where a thread stands between two lock acquisitions. */
  datatype Progress =
    | Idle
    | Loading(pending: seq<Event>)
    | Checked(kid: string)
    | Holding(kid: string, afterSet: bool)

  /** `wasSet` records that some `SetActiveKey` has succeeded. */
  datatype State = State(store: map<string, Key>, active: string, wasSet: bool, threads: map<Thread, Progress>)

  /** Each action is what one thread does under one lock acquisition, or between two. */
  datatype Action =
    | StartLoad(t: Thread, events: seq<Event>)
    | InsertKey(t: Thread)
    | EndLoad(t: Thread)
    | CheckKey(t: Thread, kid: string)
    | SetKey(t: Thread)
    | ReadActive(t: Thread)
    | LookUp(t: Thread)

  const START := State(map[], "", false, map[])

  function ProgressOf(s: State, t: Thread): Progress {
    if t in s.threads then s.threads[t] else Idle
  }

  predicate Enabled(s: State, a: Action) {
    match a
    case StartLoad(t, _) => ProgressOf(s, t).Idle?
    case InsertKey(t) => var p := ProgressOf(s, t); p.Loading? && |p.pending| > 0 && p.pending[0].Load?
    case EndLoad(t) => var p := ProgressOf(s, t); p.Loading? && (|p.pending| > 0 ==> p.pending[0].Stop?)
    case CheckKey(t, _) => ProgressOf(s, t).Idle?
    case SetKey(t) => ProgressOf(s, t).Checked?
    case ReadActive(t) => ProgressOf(s, t).Idle?
    case LookUp(t) => ProgressOf(s, t).Holding?
  }

  function Next(s: State, a: Action): State
    requires Enabled(s, a)
  {
    match a
    case StartLoad(t, events) => s.(threads := s.threads[t := Loading(events)])
    case InsertKey(t) =>
      var p := ProgressOf(s, t).pending;
      s.(store := s.store[p[0].id := p[0].key], threads := s.threads[t := Loading(p[1..])])
    case EndLoad(t) => s.(threads := s.threads[t := Idle])
    case CheckKey(t, kid) => s.(threads := s.threads[t := if kid in s.store then Checked(kid) else Idle])
    case SetKey(t) => s.(active := ProgressOf(s, t).kid, wasSet := true, threads := s.threads[t := Idle])
    case ReadActive(t) => s.(threads := s.threads[t := Holding(s.active, s.wasSet)])
    case LookUp(t) => s.(threads := s.threads[t := Idle])
  }

  /** What a look-up by the held kid finds: `PrivateKey` or `PublicKey`. */
  predicate LookUpFinds(s: State, t: Thread)
    requires Enabled(s, LookUp(t))
  {
    ProgressOf(s, t).kid in s.store
  }

  /** The state after a schedule, if every action of it is enabled in turn. */
  function Run(s: State, schedule: seq<Action>): Option<State>
    decreases |schedule|
  {
    if |schedule| == 0 then Some(s)
    else if !Enabled(s, schedule[0]) then None
    else Run(Next(s, schedule[0]), schedule[1..])
  }

  ghost predicate Inv(s: State) {
    && (if s.wasSet then s.active in s.store else s.active == "")
    && (forall t :: t in s.threads && s.threads[t].Checked? ==> s.threads[t].kid in s.store)
    && (forall t :: t in s.threads && s.threads[t].Holding? ==>
          if s.threads[t].afterSet then s.wasSet && s.threads[t].kid in s.store else s.threads[t].kid == "")
  }

  lemma NextKeeps(s: State, a: Action)
    requires Inv(s) && Enabled(s, a)
    ensures Inv(Next(s, a)) && s.store.Keys <= Next(s, a).store.Keys && (s.wasSet ==> Next(s, a).wasSet)
  {
  }

  lemma {:induction false} RunKeeps(s: State, schedule: seq<Action>)
    requires Inv(s) && Run(s, schedule).Some?
    ensures var s' := Run(s, schedule).value; Inv(s') && s.store.Keys <= s'.store.Keys && (s.wasSet ==> s'.wasSet)
    decreases |schedule|
  {
    if |schedule| > 0 {
      NextKeeps(s, schedule[0]);
      RunKeeps(Next(s, schedule[0]), schedule[1..]);
    }
  }

  /** In every interleaving the active key is unset or present; and a thread that read it after any
      successful `SetActiveKey` always finds it, however many steps later it looks. */
  lemma ActiveKeyPresent(schedule: seq<Action>)
    requires Run(START, schedule).Some?
    ensures var s := Run(START, schedule).value;
            && (s.wasSet ==> s.active in s.store) && (!s.wasSet ==> s.active == "")
            && (forall t :: Enabled(s, LookUp(t)) && ProgressOf(s, t).afterSet ==> LookUpFinds(s, t))
  {
    RunKeeps(START, schedule);
  }

  /** Once a `SetActiveKey` has succeeded, every later read of the active kid followed at any distance by
      its look-up finds a key, that of the kid that was active when read. */
  lemma LaterLookUpsFind(s: State, between: seq<Action>, t: Thread)
    requires Inv(s) && s.wasSet && Enabled(s, ReadActive(t))
    requires Run(Next(s, ReadActive(t)), between).Some?
    requires forall i :: 0 <= i < |between| ==> between[i].t != t
    ensures var s' := Run(Next(s, ReadActive(t)), between).value;
            Enabled(s', LookUp(t)) && LookUpFinds(s', t) && ProgressOf(s', t).kid == s.active
  {
    var s1 := Next(s, ReadActive(t));
    NextKeeps(s, ReadActive(t));
    RunKeeps(s1, between);
    OthersRun(s1, between, t);
  }

  lemma {:induction false} OthersRun(s: State, schedule: seq<Action>, t: Thread)
    requires Run(s, schedule).Some? && forall i :: 0 <= i < |schedule| ==> schedule[i].t != t
    ensures ProgressOf(Run(s, schedule).value, t) == ProgressOf(s, t)
    decreases |schedule|
  {
    if |schedule| > 0 {
      OthersRun(Next(s, schedule[0]), schedule[1..], t);
    }
  }

  /** Loading and setting run alone are what the sequential store does: the insertions of a load are
      `Apply`, and a check followed by a set is `SetActiveKey`. */
  lemma {:induction false} LoadAlone(s: State, t: Thread, events: seq<Event>) returns (schedule: seq<Action>)
    requires ProgressOf(s, t) == Loading(events)
    ensures Run(s, schedule) == Some(s.(store := Apply(s.store, events).0, threads := s.threads[t := Idle]))
    decreases |events|
  {
    if |events| == 0 || events[0].Stop? {
      schedule := [EndLoad(t)];
      assert schedule[1..] == [];
    } else {
      var s1 := Next(s, InsertKey(t));
      var rest := LoadAlone(s1, t, events[1..]);
      schedule := [InsertKey(t)] + rest;
      assert schedule[1..] == rest;
      assert s1.threads[t := Idle] == s.threads[t := Idle];
    }
  }

  lemma RunOne(s: State, a: Action)
    requires Enabled(s, a)
    ensures Run(s, [a]) == Some(Next(s, a))
  {
    assert [a][1..] == [];
  }

  lemma SetActiveAlone(s: State, t: Thread, kid: string)
    requires ProgressOf(s, t).Idle?
    ensures kid in s.store ==>
              Run(s, [CheckKey(t, kid), SetKey(t)]) ==
              Some(s.(active := kid, wasSet := true, threads := s.threads[t := Idle]))
    ensures kid !in s.store ==> Run(s, [CheckKey(t, kid)]) == Some(s.(threads := s.threads[t := Idle]))
  {
    if kid !in s.store {
      RunOne(s, CheckKey(t, kid));
      return;
    }
    RunTwo(s, CheckKey(t, kid), SetKey(t));
    ThreadTwice(s.threads, t, Checked(kid), Idle);
  }

  lemma ThreadTwice(threads: map<Thread, Progress>, t: Thread, a: Progress, b: Progress)
    ensures threads[t := a][t := b] == threads[t := b]
  {
  }

  lemma RunTwo(s: State, a: Action, b: Action)
    requires Enabled(s, a) && Enabled(Next(s, a), b)
    ensures Run(s, [a, b]) == Some(Next(Next(s, a), b))
  {
    assert [a, b][1..] == [b];
    RunOne(Next(s, a), b);
  }
}
