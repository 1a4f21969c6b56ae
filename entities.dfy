/**
 * A static entity instance, seen from the base class: it carries the id its
 * manager gave it, and offers `getId` and `is`. Instances are values here:
 * the id is set at construction and the base class has no setter.
 */
module Entities {
  import opened PhpValues

  datatype Entity = Entity(id: Val) {

    /** `getId()`: the stored id, handed back as it is. */
    function GetId(): (r: Val) {
      id
    }

    /**
     * `is($id)`: `$id === $this->getId()`. True exactly when the argument is
     * the stored id itself, with the same PHP type.
     */
    predicate Is(x: Val)
      ensures Is(x) <==> x == id
    {
      Identical(x, GetId())
    }
  }

  /** What `toId` accepts: a raw id, or an entity instance. */
  datatype IdOrEntity = AnId(v: Val) | AnEntity(e: Entity)

  /**
   * `getId` hands back the stored id unchanged, every entity `is` its own id,
   * and `is` accepts exactly that stored id.
   */
  lemma IsOwnId(e: Entity)
    ensures e.GetId() == e.id
    ensures e.Is(e.GetId())
    ensures forall x :: e.Is(x) <==> x == e.id
  {
  }

  /**
   * `is` performs no coercion: a value of another PHP type than the id is
   * rejected, even when PHP's loose `==` would accept it.
   */
  lemma IsWithoutCoercion(e: Entity, x: Val)
    requires TypeOf(x) != TypeOf(e.GetId())
    ensures !e.Is(x)
  {
  }
}
