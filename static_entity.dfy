/**
 * The abstract class StaticEntity: the process-wide manager table, the
 * private `getManager` that fills it, and the six public static forwarders.
 *
 * PHP keeps the table in a private static property of the base class. Here
 * it is one `Registry` object whose fields the methods update in place, and
 * the class a static call is made on (PHP's late static binding) is the
 * explicit parameter `cls` of every method.
 */
module StaticEntity {
  import opened PhpValues
  import opened Entities
  import opened ManagerRegistry

  /** The value `getAssociative` uses when called without an argument. */
  const DefaultValueKey: string := "name"

  class Registry {
    /** `self::$managers` */
    var managers: map<ClassName, Manager>
    /** How many `StaticEntityManager` objects have been built so far. */
    var created: nat

    function State(): RegistryState
      reads this
    {
      RegistryState(managers, created)
    }

    predicate Valid()
      reads this
    {
      State().Valid()
    }

    /** The table at the start of the process: empty. */
    constructor ()
      ensures Valid() && State() == Empty
    {
      managers := map[];
      created := 0;
    }

    /** `getManager()`, called from class `cls`. */
    method GetManager(cls: ClassName) returns (r: Result<Manager>)
      modifies this
      ensures old(Valid()) ==> Valid()
      ensures (r, State()) == Resolve(old(State()), cls)
      ensures cls == BaseClass ==> r == Failure(DirectInvocation) && unchanged(this)
      ensures cls != BaseClass && cls in old(managers) ==> r == Success(old(managers)[cls]) && unchanged(this)
      ensures cls != BaseClass && cls !in old(managers) ==>
                && r.Success? && r.value.forClass == cls
                && managers == old(managers)[cls := r.value]
                && created == old(created) + 1
    {
      if Valid() {
        ResolveKeepsValid(State(), cls);
      }
      if cls == BaseClass {
        return Failure(DirectInvocation);
      }
      if cls !in managers {
        managers := managers[cls := Manager(created, cls)];
        created := created + 1;
      }
      r := Success(managers[cls]);
    }

    /** Resolve the manager of `cls`, then pass `call` on to it. */
    method Forward(cls: ClassName, call: ManagerCall) returns (r: Result<Delegation>)
      modifies this
      ensures old(Valid()) ==> Valid()
      ensures (r, State()) == Delegate(old(State()), cls, call)
    {
      var m := GetManager(cls);
      match m
      case Failure(e) => r := Failure(e);
      case Success(mgr) => r := Success(Delegation(mgr, call));
    }

    /** `get($identifier)` */
    method Get(cls: ClassName, identifier: Val) returns (r: Result<Delegation>)
      modifies this
      ensures old(Valid()) ==> Valid()
      ensures (r, State()) == Delegate(old(State()), cls, ManagerCall.Get(identifier))
    {
      r := Forward(cls, ManagerCall.Get(identifier));
    }

    /** `hasId($id)` */
    method HasId(cls: ClassName, id: Val) returns (r: Result<Delegation>)
      modifies this
      ensures old(Valid()) ==> Valid()
      ensures (r, State()) == Delegate(old(State()), cls, ManagerCall.HasId(id))
    {
      r := Forward(cls, ManagerCall.HasId(id));
    }

    /** `getAll()` */
    method GetAll(cls: ClassName) returns (r: Result<Delegation>)
      modifies this
      ensures old(Valid()) ==> Valid()
      ensures (r, State()) == Delegate(old(State()), cls, ManagerCall.GetAll)
    {
      r := Forward(cls, ManagerCall.GetAll);
    }

    /** `getAssociative($valueKey = 'name')` */
    method GetAssociative(cls: ClassName, valueKey: string := DefaultValueKey) returns (r: Result<Delegation>)
      modifies this
      ensures old(Valid()) ==> Valid()
      ensures (r, State()) == Delegate(old(State()), cls, ManagerCall.GetAssociative(valueKey))
    {
      r := Forward(cls, ManagerCall.GetAssociative(valueKey));
    }

    /** `getIds()` */
    method GetIds(cls: ClassName) returns (r: Result<Delegation>)
      modifies this
      ensures old(Valid()) ==> Valid()
      ensures (r, State()) == Delegate(old(State()), cls, ManagerCall.GetIds)
    {
      r := Forward(cls, ManagerCall.GetIds);
    }

    /** `toId($idOrEntity)`: delegated to the manager's `convertToId`. */
    method ToId(cls: ClassName, idOrEntity: IdOrEntity) returns (r: Result<Delegation>)
      modifies this
      ensures old(Valid()) ==> Valid()
      ensures (r, State()) == Delegate(old(State()), cls, ManagerCall.ConvertToId(idOrEntity))
    {
      r := Forward(cls, ManagerCall.ConvertToId(idOrEntity));
    }
  }

  /**
   * `getAssociative()` without an argument asks the manager of `cls` for the
   * values under the key `"name"`; on the base class it fails.
   */
  method AssociativeByDefault(reg: Registry, cls: ClassName) returns (r: Result<Delegation>)
    modifies reg
    ensures cls == BaseClass <==> r.Failure?
    ensures r.Success? ==> r.value.call == ManagerCall.GetAssociative("name")
    ensures r.Success? ==> cls in reg.managers && r.value.manager == reg.managers[cls]
  {
    r := reg.GetAssociative(cls);
  }

  /**
   * Two successive calls from one concrete class share one manager: the
   * first builds it if needed, the second builds nothing.
   */
  method ResolveRepeatedly(reg: Registry, cls: ClassName) returns (r1: Result<Manager>, r2: Result<Manager>)
    requires cls != BaseClass
    modifies reg
    ensures r1.Success? && r2 == r1
    ensures cls in reg.managers && r1.value == reg.managers[cls]
    ensures cls in old(reg.managers) ==> reg.created == old(reg.created)
    ensures cls !in old(reg.managers) ==> reg.created == old(reg.created) + 1
  {
    r1 := reg.GetManager(cls);
    r2 := reg.GetManager(cls);
  }
}
