/**
 * The value-level model of the per-class manager registry of StaticEntity:
 * a table from a concrete class name to the manager built for that class,
 * filled lazily by `getManager`, and never emptied.
 *
 * `new StaticEntityManager($class)` creates a fresh object every time it is
 * evaluated. The model stands for that object by a `Manager` value carrying
 * a serial number (how many managers had been built before it) and the class
 * it was constructed with; the registry counts the managers built so far.
 */
module ManagerRegistry {
  import opened PhpValues
  import opened Entities

  /** A fully qualified PHP class name, as `get_called_class()` returns it. */
  type ClassName = string

  /** `__CLASS__` inside StaticEntity: the abstract base class itself. */
  const BaseClass: ClassName := "Byscripts\\StaticEntity\\StaticEntity"

  /** The only failure this layer raises: a static call on the base class. */
  datatype Error = DirectInvocation

  datatype Result<T> = Success(value: T) | Failure(error: Error)

  /**
   * A manager object. Its serial is its identity; the class it was built
   * for is the one fact the base class knows about it.
   */
  datatype Manager = Manager(serial: nat, forClass: ClassName)

  /** `self::$managers`, together with the number of managers built so far. */
  datatype RegistryState = RegistryState(managers: map<ClassName, Manager>, created: nat) {

    /**
     * The invariant of the table: the base class is never a key, every
     * manager was built for the class it is stored under, exactly one
     * manager was built per stored class, and no two entries share a
     * manager object.
     */
    predicate Valid() {
      && BaseClass !in managers
      && created == |managers|
      && (forall c :: c in managers ==> managers[c].forClass == c && managers[c].serial < created)
      && (forall c, d :: c in managers && d in managers && managers[c].serial == managers[d].serial ==> c == d)
    }
  }

  /** The table before any static call: unset, i.e. empty. */
  const Empty: RegistryState := RegistryState(map[], 0)

  lemma EmptyIsValid()
    ensures Empty.Valid()
  {
  }

  /**
   * `getManager()` called from class `cls`: reject the base class, build
   * and store a manager for `cls` if none is stored yet, and return the
   * stored one.
   */
  function Resolve(st: RegistryState, cls: ClassName): (out: (Result<Manager>, RegistryState))
    // rejection happens for the base class and only for it, and changes nothing
    ensures out.0.Failure? <==> cls == BaseClass
    ensures cls == BaseClass ==> out.1 == st
    // on success the returned manager is the one now stored for cls
    ensures out.0.Success? ==> cls in out.1.managers && out.0.value == out.1.managers[cls]
    // an already stored manager is returned and nothing is built
    ensures cls != BaseClass && cls in st.managers ==> out.0 == Success(st.managers[cls]) && out.1 == st
    // a newly built manager is bound to cls and is a new object
    ensures cls != BaseClass && cls !in st.managers ==>
              && out.0.value.forClass == cls
              && out.0.value.serial == st.created
              && out.1.created == st.created + 1
    // every other entry is left as it was, and at most cls is added
    ensures out.1.managers.Keys == st.managers.Keys + (if out.0.Success? then {cls} else {})
    ensures forall c :: c in st.managers ==> out.1.managers[c] == st.managers[c]
  {
    if cls == BaseClass then
      (Failure(DirectInvocation), st)
    else if cls in st.managers then
      (Success(st.managers[cls]), st)
    else
      var m := Manager(st.created, cls);
      (Success(m), RegistryState(st.managers[cls := m], st.created + 1))
  }

  /** `getManager` keeps the table's invariant. */
  lemma ResolveKeepsValid(st: RegistryState, cls: ClassName)
    requires st.Valid()
    ensures Resolve(st, cls).1.Valid()
  {
    var st' := Resolve(st, cls).1;
    if cls != BaseClass && cls !in st.managers {
      assert st'.managers == st.managers[cls := Manager(st.created, cls)];
      assert |st'.managers| == |st.managers| + 1;
    }
  }

  /** Resolving twice from the same class returns the same manager, and the second call changes nothing. */
  lemma ResolveTwice(st: RegistryState, cls: ClassName)
    ensures var (r1, st1) := Resolve(st, cls);
            var (r2, st2) := Resolve(st1, cls);
            r2 == r1 && st2 == st1
  {
  }

  /**
   * A process lifetime: the classes from which `getManager` is called, in
   * order, starting from table `st`; the results of the calls and the final
   * table.
   */
  function Run(st: RegistryState, calls: seq<ClassName>): (out: (seq<Result<Manager>>, RegistryState))
    ensures |out.0| == |calls|
    decreases |calls|
  {
    if calls == [] then
      ([], st)
    else
      var (r, st1) := Resolve(st, calls[0]);
      var (rs, st2) := Run(st1, calls[1..]);
      ([r] + rs, st2)
  }

  /** Entries are never removed or replaced: the table only grows. */
  lemma {:induction false} RunKeepsEntries(st: RegistryState, calls: seq<ClassName>)
    ensures st.managers.Keys <= Run(st, calls).1.managers.Keys
    ensures forall c :: c in st.managers ==> Run(st, calls).1.managers[c] == st.managers[c]
    decreases |calls|
  {
    if calls != [] {
      RunKeepsEntries(Resolve(st, calls[0]).1, calls[1..]);
    }
  }

  /** After a lifetime of calls the keys are the old keys plus every class other than the base one that called. */
  lemma {:induction false} RunKeys(st: RegistryState, calls: seq<ClassName>)
    ensures Run(st, calls).1.managers.Keys == st.managers.Keys + (set c | c in calls && c != BaseClass)
    decreases |calls|
  {
    if calls != [] {
      RunKeys(Resolve(st, calls[0]).1, calls[1..]);
      CallersSplit(calls);
    }
  }

  /** The non-base callers of a sequence are its first caller, if not the base class, and those of the rest. */
  lemma CallersSplit(calls: seq<ClassName>)
    requires calls != []
    ensures (set c | c in calls && c != BaseClass)
         == (if calls[0] != BaseClass then {calls[0]} else {}) + (set c | c in calls[1..] && c != BaseClass)
  {
    assert calls == [calls[0]] + calls[1..];
  }

  /** The table's invariant holds throughout a lifetime. */
  lemma {:induction false} RunKeepsValid(st: RegistryState, calls: seq<ClassName>)
    requires st.Valid()
    ensures Run(st, calls).1.Valid()
    decreases |calls|
  {
    if calls != [] {
      ResolveKeepsValid(st, calls[0]);
      RunKeepsValid(Resolve(st, calls[0]).1, calls[1..]);
    }
  }

  /**
   * Every call of a lifetime fails exactly when made from the base class,
   * and otherwise returns the very manager the table holds for its class at
   * the end.
   */
  lemma {:induction false} RunResultIsFinal(st: RegistryState, calls: seq<ClassName>, j: nat)
    requires j < |calls|
    ensures var (rs, fin) := Run(st, calls);
            && (rs[j].Failure? <==> calls[j] == BaseClass)
            && (rs[j].Success? ==> calls[j] in fin.managers && rs[j].value == fin.managers[calls[j]])
    decreases |calls|
  {
    var st1 := Resolve(st, calls[0]).1;
    if j == 0 {
      RunKeepsEntries(st1, calls[1..]);
    } else {
      RunResultIsFinal(st1, calls[1..], j - 1);
    }
  }

  /** Repeated calls from one class return the same manager object. */
  lemma RepeatedCallsAgree(st: RegistryState, calls: seq<ClassName>, i: nat, j: nat)
    requires i < |calls| && j < |calls| && calls[i] == calls[j]
    ensures Run(st, calls).0[i] == Run(st, calls).0[j]
  {
    RunResultIsFinal(st, calls, i);
    RunResultIsFinal(st, calls, j);
  }

  /**
   * From the empty table, a lifetime builds exactly one manager per distinct
   * class other than the base one that called, each bound to its class.
   */
  lemma OneManagerPerClass(calls: seq<ClassName>)
    ensures var fin := Run(Empty, calls).1;
            && fin.created == |set c | c in calls && c != BaseClass|
            && forall c :: c in fin.managers ==> fin.managers[c].forClass == c
  {
    RunKeys(Empty, calls);
    RunKeepsValid(Empty, calls);
  }

  /**
   * A lifetime in which `Color` calls twice, then the base class, then
   * `Status`: `Color` gets the first manager built both times, the base class
   * is rejected, and `Status` gets a second, distinct manager.
   */
  lemma ColorStatusLifetime()
    ensures var (rs, fin) := Run(Empty, ["Color", "Color", BaseClass, "Status"]);
            && rs == [Success(Manager(0, "Color")), Success(Manager(0, "Color")),
                      Failure(DirectInvocation), Success(Manager(1, "Status"))]
            && fin.managers == map["Color" := Manager(0, "Color"), "Status" := Manager(1, "Status")]
            && fin.created == 2
  {
    var color, status := Manager(0, "Color"), Manager(1, "Status");
    var st1 := RegistryState(map["Color" := color], 1);
    var st2 := RegistryState(map["Color" := color, "Status" := status], 2);
    var c4: seq<ClassName> := ["Color", "Color", BaseClass, "Status"];
    var c3, c2, c1 := c4[1..], c4[2..], c4[3..];
    assert c3 == ["Color", BaseClass, "Status"] && c3[1..] == c2;
    assert c2 == [BaseClass, "Status"] && c2[1..] == c1;
    assert c1 == ["Status"] && c1[1..] == [];
    assert Resolve(Empty, "Color") == (Success(color), st1);
    assert Resolve(st1, "Color") == (Success(color), st1);
    assert Resolve(st1, BaseClass) == (Failure(DirectInvocation), st1);
    assert Resolve(st1, "Status") == (Success(status), st2);
    assert Run(st2, []) == ([], st2);
    assert Run(st1, c1) == ([Success(status)] + [], st2);
    assert [Success(status)] + [] == [Success(status)];
    assert Run(st1, c2) == ([Failure(DirectInvocation)] + [Success(status)], st2);
    assert [Failure(DirectInvocation)] + [Success(status)] == [Failure(DirectInvocation), Success(status)];
    assert Run(st1, c3) == ([Success(color)] + [Failure(DirectInvocation), Success(status)], st2);
    assert [Success(color)] + [Failure(DirectInvocation), Success(status)]
        == [Success(color), Failure(DirectInvocation), Success(status)];
    assert Run(Empty, c4).0 == [Success(color)] + [Success(color), Failure(DirectInvocation), Success(status)];
  }

  /** What a static forwarder asks of the manager it resolved. */
  datatype ManagerCall =
    | Get(identifier: Val)
    | HasId(id: Val)
    | GetAll
    | GetAssociative(valueKey: string)
    | GetIds
    | ConvertToId(idOrEntity: IdOrEntity)

  /** The manager a forwarder resolved, and the call it passes on to it unchanged. */
  datatype Delegation = Delegation(manager: Manager, call: ManagerCall)

  /**
   * A static forwarder called from `cls`: `self::getManager()->op(args)`.
   * The manager is resolved first; on the base class the call fails before
   * any manager is reached.
   */
  function Delegate(st: RegistryState, cls: ClassName, call: ManagerCall): (out: (Result<Delegation>, RegistryState))
    ensures out.0.Failure? <==> cls == BaseClass
    ensures cls == BaseClass ==> out.1 == st
    ensures out.1 == Resolve(st, cls).1
    ensures out.0.Success? ==> out.0.value == Delegation(Resolve(st, cls).0.value, call)
  {
    var (r, st') := Resolve(st, cls);
    match r
    case Failure(e) => (Failure(e), st')
    case Success(m) => (Success(Delegation(m, call)), st')
  }

  /** Every forwarder fails on the base class, leaving the table untouched. */
  lemma DelegateOnBaseFails(st: RegistryState, call: ManagerCall)
    ensures Delegate(st, BaseClass, call) == (Failure(DirectInvocation), st)
  {
  }

  /** A forwarder called from a concrete class reaches the manager stored for that class. */
  lemma DelegateReachesStoredManager(st: RegistryState, cls: ClassName, call: ManagerCall)
    requires st.Valid() && cls != BaseClass
    ensures var (r, st') := Delegate(st, cls, call);
            && r.Success?
            && r.value.manager == st'.managers[cls]
            && r.value.manager.forClass == cls
            && r.value.call == call
  {
  }
}
