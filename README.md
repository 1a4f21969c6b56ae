# StaticEntity manager registry, in Dafny

A model of the abstract PHP class `StaticEntity` (ByscriptsStaticEntity).
A concrete subclass such as `Color` or `Status` stands for a fixed catalog
of value objects. Every class-level call on such a subclass goes through the
private `getManager`, which keeps a process-wide table from class name to
the `StaticEntityManager` built for that class:

- a call made on `StaticEntity` itself is rejected;
- otherwise the table is consulted, and a manager is built and stored for
  the calling class only when none is stored yet;
- the stored manager is returned, and the call is passed on to it.

Instances expose `getId` (the stored id) and `is` (PHP's strict `===`
against that id).

Files and modules:

- `php_values.dfy`, module `PhpValues`: the PHP scalar values an id can
  be (`Val`), tagged with their PHP type, and strict identity `===`.
- `entities.dfy`, module `Entities`: an entity instance with `GetId` and
  `Is`, and the id-or-instance argument of `toId`.
- `manager_registry.dfy`, module `ManagerRegistry`: the registry as a
  value (`RegistryState`) with its invariant, `Resolve` (what one
  `getManager` call does to it), `Run` (a sequence of calls over a process
  lifetime), `Delegate` (one static forwarder), and the lemmas about them.
- `static_entity.dfy`, module `StaticEntity`: the `Registry` class whose
  fields hold the table and are updated in place by `GetManager`, and the
  six forwarders as methods of it. Each method's contract equates its
  result and new state with `Resolve` or `Delegate` applied to the old
  state.

Modelling choices:

- The static property `self::$managers` becomes the fields of a single
  `Registry` object. It starts empty, which is what `isset` sees on the
  initially unset property.
- PHP's late static binding (`get_called_class()`) becomes an explicit
  parameter `cls`, a fully qualified class name. The base class is the
  string `Byscripts\StaticEntity\StaticEntity`, which is what `__CLASS__`
  gives. The comparison is exact string equality, as `===` is.
- Each `new StaticEntityManager($class)` yields a new object. A manager is
  modelled as `Manager(serial, forClass)`. The serial is the number of
  managers built before it and stands for object identity. `forClass` is
  the class it was built for. The registry keeps the count `created`.
- The manager's behaviour is not part of this model. A forwarder
  therefore returns a `Delegation`: which manager it resolved and which
  call, with which arguments, it passes on. The manager's answer is not
  modelled.
- The single failure `DirectInvocation` stands for the exception thrown at
  src/StaticEntity.php:121.

## Model

| member | source | states |
|---|---|---|
| PhpValues.Identical | src/StaticEntity.php:150 | `===` on the tagged values (same PHP type, then same payload) holds exactly when the two values are equal as tagged values |
| PhpValues.IdenticalRespectsType | src/StaticEntity.php:150 | strictly identical values always have the same PHP type |
| PhpValues.IntegerIsNeverIdenticalToString | src/StaticEntity.php:150 | an integer and a string are never strictly identical, in either order (so `1` is not `"1"`) |
| Entities.Entity.Is | src/StaticEntity.php:148-151 | `is(x)` is true exactly when `x` equals the stored `id` field, type included |
| Entities.IsOwnId | src/StaticEntity.php:136-151 | `getId()` returns the stored `id` field unchanged; every instance `is` the id that `getId` returns; `is` accepts exactly the stored id |
| Entities.IsWithoutCoercion | src/StaticEntity.php:148-151 | `is(x)` is false whenever `x` has a different PHP type from the id |
| ManagerRegistry.EmptyIsValid | src/StaticEntity.php:23 | the initial, empty table satisfies the registry invariant |
| ManagerRegistry.Resolve | src/StaticEntity.php:116-129 | fails exactly for the base class and then changes nothing; on success returns the manager stored for the class afterwards; returns the already stored manager and changes nothing when one exists; otherwise builds one manager bound to the class, with a new serial; adds at most the calling class to the keys and keeps every existing entry |
| ManagerRegistry.ResolveKeepsValid | src/StaticEntity.php:116-129 | one `getManager` call keeps the invariant: base class never stored, one manager built per stored class, each bound to its key, no manager shared by two keys |
| ManagerRegistry.ResolveTwice | src/StaticEntity.php:124-128 | a second call from the same class returns the same result and leaves the table unchanged |
| ManagerRegistry.Run | src/StaticEntity.php:116-129 | a sequence of `getManager` calls yields one result per call |
| ManagerRegistry.RunKeepsEntries | src/StaticEntity.php:124-126 | over any sequence of calls no key is removed and no stored manager is replaced |
| ManagerRegistry.RunKeys | src/StaticEntity.php:118-126 | after a sequence of calls the keys are the initial keys plus every calling class other than the base class |
| ManagerRegistry.RunKeepsValid | src/StaticEntity.php:116-129 | the registry invariant holds after any sequence of calls |
| ManagerRegistry.RunResultIsFinal | src/StaticEntity.php:118-128 | each call in a sequence fails exactly when made from the base class; otherwise it returns exactly the manager the table holds for that class at the end |
| ManagerRegistry.RepeatedCallsAgree | src/StaticEntity.php:124-128 | any two calls from the same class in a sequence return the same manager object |
| ManagerRegistry.OneManagerPerClass | src/StaticEntity.php:124-126 | starting from the empty table, the number of managers ever built equals the number of distinct non-base calling classes, and each stored manager is bound to its class |
| ManagerRegistry.ColorStatusLifetime | src/StaticEntity.php:116-129 | calls from `Color`, `Color`, the base class and `Status`, from the empty table: both `Color` calls return the first manager built, the base-class call fails, `Status` gets a second manager; two managers are built in all |
| ManagerRegistry.Delegate | src/StaticEntity.php:37-107 | a forwarder first resolves the manager: it fails exactly on the base class without changing the table; otherwise it has the table effect of `getManager` and hands its call, unchanged, to the resolved manager |
| ManagerRegistry.DelegateOnBaseFails | src/StaticEntity.php:37-122 | every forwarder, whatever its call, fails with the direct-invocation error on the base class and leaves the table as it was |
| ManagerRegistry.DelegateReachesStoredManager | src/StaticEntity.php:37-129 | on a concrete class a forwarder succeeds, and its call goes to the manager now stored for that class, which was built for that class |
| StaticEntity.Registry.constructor | src/StaticEntity.php:23 | the table starts empty, with no manager built |
| StaticEntity.Registry.GetManager | src/StaticEntity.php:116-129 | result and new table are those of `Resolve`; the base class fails with the table unchanged; a stored manager is returned with the table unchanged; otherwise exactly one entry, a manager bound to the class, is added and the count grows by one; the invariant is kept |
| StaticEntity.Registry.Forward | src/StaticEntity.php:37-107 | result and new table are those of `Delegate` for the given call; the invariant is kept |
| StaticEntity.Registry.Get | src/StaticEntity.php:37-40 | result and new table are those of `Delegate` with the manager's `get` and the identifier unchanged |
| StaticEntity.Registry.HasId | src/StaticEntity.php:51-54 | result and new table are those of `Delegate` with the manager's `hasId` and the id unchanged |
| StaticEntity.Registry.GetAll | src/StaticEntity.php:63-66 | result and new table are those of `Delegate` with the manager's `getAll` |
| StaticEntity.Registry.GetAssociative | src/StaticEntity.php:77-80 | result and new table are those of `Delegate` with the manager's `getAssociative` and the value key, `"name"` when none is given |
| StaticEntity.Registry.GetIds | src/StaticEntity.php:89-92 | result and new table are those of `Delegate` with the manager's `getIds` |
| StaticEntity.Registry.ToId | src/StaticEntity.php:104-107 | result and new table are those of `Delegate` with the manager's `convertToId` and the argument unchanged |
| StaticEntity.AssociativeByDefault | src/StaticEntity.php:77-79 | `getAssociative()` with no argument fails exactly on the base class and otherwise asks the stored manager for key `"name"` |
| StaticEntity.ResolveRepeatedly | src/StaticEntity.php:124-128 | two successive calls from a concrete class both succeed with the same manager, which is the stored one; a manager is built only if none was stored before |

## Left out

- The internals of `StaticEntityManager` (catalog loading, `get`, `hasId`, `getAll`, `getAssociative`, `getIds`, `convertToId`): that class is not part of this model. Its results, orderings and not-found or unknown-attribute errors are not modelled. A forwarder's outcome is the manager it reaches and the call it passes on.
- Manager-level failures propagating through the forwarders: they belong to the manager, which is not modelled.
- ManagerRegistry.Resolve: assumes that `new StaticEntityManager($class)` at src/StaticEntity.php:125 never throws. If it did, `getManager` would propagate that exception with the table unchanged; the model has no such outcome, so its "fails exactly on the base class" clauses (also in `Delegate` and `RunResultIsFinal`) rest on this assumption.
- Instance invariants about ids (an instance's id is known to its manager): established by the manager, which is not modelled.
- Late static binding: the calling class is an explicit argument.
- Concurrency and the check-then-act race on the table: the source is single-threaded PHP and nothing in it synchronises.
- The exception's message text and its `\Exception` type: one failure value stands for it.
- `isset` treating a stored `null` as absent: the table never stores `null`, so this case does not arise.
- PHP floats and arrays as ids: floats break structural equality under `===` (`NAN !== NAN`), and arrays as ids are outside what a catalog uses. Only null, booleans, integers and strings are modelled.
- Entities.Entity.Is: a subclass that overrides `getId` is not modelled; `Is` is tied to the stored id, as the base class's `getId` (src/StaticEntity.php:136-139) returns it.
- Entities.Entity.GetId: it has no contract of its own; `IsOwnId` states that it returns the stored `id` field unchanged.
