/** The benchmark's single-flight cache: every interleaving of any number of tasks over any number of names. */
module SingleFlight {
  import opened Prelude

  type Name = string
  type Task = nat
  type Addrs = seq<nat>

  datatype Entry = Resolved(addrs: Addrs, expiry: nat) | Pending

  datatype Action = Return(addrs: Addrs) | Wait | Refresh

  /** What the first lock section does to the map and tells the task. */
  function Locked(inner: map<Name, Entry>, name: Name): (r: (map<Name, Entry>, Action)) {
    if name !in inner then (inner[name := Pending], Refresh)
    else if inner[name].Pending? then (inner, Wait)
    else (inner, Return(inner[name].addrs))
  }

  /** The shared map; each method is one critical section. */
  class Cache {
    var inner: map<Name, Entry>

    constructor ()
      ensures inner == map[]
    {
      inner := map[];
    }

    method CachedGet(name: Name, now: nat) returns (r: Option<Addrs>)
      ensures r.Some? <==> name in inner && inner[name].Resolved? && now < inner[name].expiry
      ensures r.Some? ==> r.value == inner[name].addrs
    {
      if name in inner {
        match inner[name] {
          case Resolved(addrs, expiry) =>
            if now < expiry {
              return Some(addrs);
            }
          case Pending =>
        }
      }
      return None;
    }

    method LockSection(name: Name) returns (a: Action)
      modifies this
      ensures (inner, a) == Locked(old(inner), name)
    {
      if name in inner {
        match inner[name] {
          case Resolved(addrs, _) => return Return(addrs);
          case Pending => return Wait;
        }
      }
      inner := inner[name := Pending];
      return Refresh;
    }

    method Publish(name: Name, addrs: Addrs, expiry: nat)
      modifies this
      ensures inner == old(inner)[name := Resolved(addrs, expiry)]
    {
      inner := inner[name := Resolved(addrs, expiry)];
    }
  }

  // ---------------------------------------------------------------- interleavings

  /** Where a task is in its loop. */
  datatype Phase =
    | Asking(name: Name)
    | Waiting(name: Name)
    | Refreshing(name: Name)
    | Called(name: Name, addrs: Addrs)
    | Done(name: Name, addrs: Addrs)

  /** `owner`, `calls` and `answer` record who installed a placeholder, the resolver calls and their answer. */
  datatype State = State(
    inner: map<Name, Entry>,
    tasks: map<Task, Phase>,
    owner: map<Name, Task>,
    calls: map<Name, nat>,
    answer: map<Name, Addrs>)

  const EMPTY := State(map[], map[], map[], map[], map[])

  function CallCount(s: State, n: Name): nat { if n in s.calls then s.calls[n] else 0 }

  datatype Step =
    | Spawn(task: Task, name: Name)
    | Lock(task: Task)
    | Wake(task: Task)
    | CallResolver(task: Task, addrs: Addrs)
    | PublishAnswer(task: Task, expiry: nat)

  predicate Enabled(s: State, step: Step) {
    match step
    case Spawn(t, _) => t !in s.tasks
    case Lock(t) => t in s.tasks && s.tasks[t].Asking?
    case Wake(t) => t in s.tasks && s.tasks[t].Waiting?
    case CallResolver(t, _) => t in s.tasks && s.tasks[t].Refreshing?
    case PublishAnswer(t, _) => t in s.tasks && s.tasks[t].Called?
  }

  function Next(s: State, step: Step): (s': State)
    requires Enabled(s, step)
  {
    match step
    case Spawn(t, n) => s.(tasks := s.tasks[t := Asking(n)])
    case Lock(t) =>
      var n := s.tasks[t].name;
      var (inner, action) := Locked(s.inner, n);
      (match action
       case Return(addrs) => s.(tasks := s.tasks[t := Done(n, addrs)])
       case Wait => s.(tasks := s.tasks[t := Waiting(n)])
       case Refresh => s.(inner := inner, tasks := s.tasks[t := Refreshing(n)], owner := s.owner[n := t]))
    case Wake(t) => s.(tasks := s.tasks[t := Asking(s.tasks[t].name)])
    case CallResolver(t, addrs) =>
      var n := s.tasks[t].name;
      s.(tasks := s.tasks[t := Called(n, addrs)], calls := s.calls[n := CallCount(s, n) + 1],
         answer := s.answer[n := addrs])
    case PublishAnswer(t, expiry) =>
      var n, addrs := s.tasks[t].name, s.tasks[t].addrs;
      s.(inner := s.inner[n := Resolved(addrs, expiry)], tasks := s.tasks[t := Done(n, addrs)])
  }

  /** Any sequence of enabled steps. */
  ghost predicate Reaches(s: State, steps: seq<Step>, s': State)
    decreases |steps|
  {
    if steps == [] then s == s'
    else Enabled(s, steps[0]) && Reaches(Next(s, steps[0]), steps[1..], s')
  }

  predicate Flying(s: State, t: Task, n: Name) {
    t in s.tasks && s.tasks[t].name == n && (s.tasks[t].Refreshing? || s.tasks[t].Called?)
  }

  /** A task's phase agrees with the map and the history. */
  ghost predicate TaskOk(s: State, p: Phase, t: Task) {
    match p
    case Asking(_) => true
    case Waiting(_) => true
    case Refreshing(n) =>
      n in s.owner && s.owner[n] == t && n in s.inner && s.inner[n].Pending? && CallCount(s, n) == 0
    case Called(n, a) =>
      && n in s.owner && s.owner[n] == t && n in s.inner && s.inner[n].Pending?
      && CallCount(s, n) == 1 && n in s.answer && s.answer[n] == a
    case Done(n, a) =>
      n in s.inner && s.inner[n].Resolved? && CallCount(s, n) == 1 && n in s.answer && s.answer[n] == a
  }

  ghost predicate NameOk(s: State, n: Name) {
    && (n in s.inner <==> n in s.owner)
    && (n !in s.inner ==> CallCount(s, n) == 0)
    && (n in s.inner && s.inner[n].Resolved? ==>
          CallCount(s, n) == 1 && n in s.answer && s.answer[n] == s.inner[n].addrs)
    && (n in s.inner && s.inner[n].Pending? ==> Flying(s, s.owner[n], n))
  }

  ghost predicate Ok(s: State) {
    (forall t :: t in s.tasks ==> TaskOk(s, s.tasks[t], t)) && (forall n: Name :: NameOk(s, n))
  }

  lemma NextKeepsOk(s: State, step: Step)
    requires Ok(s) && Enabled(s, step)
    ensures Ok(Next(s, step))
    ensures forall n :: n in s.owner ==> n in Next(s, step).owner && Next(s, step).owner[n] == s.owner[n]
  {
    var s' := Next(s, step);
    var n := if step.Spawn? then step.name else s.tasks[step.task].name;
    assert NameOk(s, n);
    assert step.Spawn? || TaskOk(s, s.tasks[step.task], step.task);
    forall m: Name ensures NameOk(s', m) { assert NameOk(s, m); }
    forall t | t in s'.tasks ensures TaskOk(s', s'.tasks[t], t) {
      if t != step.task { assert TaskOk(s, s.tasks[t], t); }
    }
  }

  lemma {:induction false} OkAlways(s: State, steps: seq<Step>, s': State)
    requires Ok(s) && Reaches(s, steps, s')
    ensures Ok(s')
    ensures forall n :: n in s.owner ==> n in s'.owner && s'.owner[n] == s.owner[n]
    decreases |steps|
  {
    if steps != [] {
      NextKeepsOk(s, steps[0]);
      OkAlways(Next(s, steps[0]), steps[1..], s');
    }
  }

  /** For every interleaving, each name is resolved at most once and every task returns that one answer. */
  lemma OneCallOneAnswer(steps: seq<Step>, s: State)
    requires Reaches(EMPTY, steps, s)
    ensures forall n: Name :: CallCount(s, n) <= 1
    ensures forall t :: t in s.tasks && s.tasks[t].Done? ==>
              var n := s.tasks[t].name; CallCount(s, n) == 1 && n in s.answer && s.tasks[t].addrs == s.answer[n]
  {
    OkAlways(EMPTY, steps, s);
    forall n: Name ensures CallCount(s, n) <= 1 {
      assert NameOk(s, n);
      if n in s.inner && s.inner[n].Pending? { assert TaskOk(s, s.tasks[s.owner[n]], s.owner[n]); }
    }
    forall t | t in s.tasks && s.tasks[t].Done? ensures TaskOk(s, s.tasks[t], t) { }
  }

  /** Over a whole run, at most one task is ever the refresher of a name. */
  lemma OneRefresherEver(before: seq<Step>, s: State, after: seq<Step>, s': State, t: Task, t': Task, n: Name)
    requires Reaches(EMPTY, before, s) && Reaches(s, after, s')
    requires Flying(s, t, n) && Flying(s', t', n)
    ensures t == t'
  {
    OkAlways(EMPTY, before, s);
    assert TaskOk(s, s.tasks[t], t);
    OkAlways(s, after, s');
    assert TaskOk(s', s'.tasks[t'], t');
  }

  /**
   * Nobody waits in vain: in every interleaving a task that takes the lock becomes the refresher exactly if
   * the name is new, waits exactly while another task is resolving it, and is done exactly once it is resolved.
   */
  lemma LockProgress(steps: seq<Step>, s: State, t: Task)
    requires Reaches(EMPTY, steps, s) && t in s.tasks && s.tasks[t].Asking?
    ensures var n, p := s.tasks[t].name, Next(s, Lock(t)).tasks[t];
            && p.name == n
            && (p.Refreshing? <==> n !in s.inner)
            && (p.Waiting? <==> exists u :: Flying(s, u, n))
            && (p.Done? <==> n in s.inner && s.inner[n].Resolved?)
            && (p.Refreshing? ==> Next(s, Lock(t)).inner == s.inner[n := Pending])
  {
    OkAlways(EMPTY, steps, s);
    var n := s.tasks[t].name;
    assert NameOk(s, n);
    forall u | Flying(s, u, n) ensures n in s.inner && s.inner[n].Pending? { assert TaskOk(s, s.tasks[u], u); }
  }

  /** Publishing hands the refresher's own answer to its caller and to everyone who asks from then on. */
  lemma PublishServesEveryone(s: State, t: Task, expiry: nat, u: Task)
    requires t in s.tasks && s.tasks[t].Called? && u in s.tasks && u != t
    requires s.tasks[u] == Asking(s.tasks[t].name)
    ensures var s' := Next(s, PublishAnswer(t, expiry));
            && s'.tasks[t] == Done(s.tasks[t].name, s.tasks[t].addrs)
            && Enabled(s', Lock(u)) && Next(s', Lock(u)).tasks[u] == Done(s.tasks[t].name, s.tasks[t].addrs)
  {
  }
}
