/**
 * The per-user meta store behind get_user_meta / update_user_meta: one
 * string per (user id, meta key). get_user_meta($id, $key, true) gives ""
 * for a key that was never written.
 */
module UserMeta {

  type Meta = map<(int, string), string>

  /** get_user_meta($user, $key, true) over a snapshot of the store. */
  function Lookup(meta: Meta, user: int, key: string): (v: string)
    ensures (user, key) !in meta ==> v == ""
  {
    if (user, key) in meta then meta[(user, key)] else ""
  }

  /** The store itself, written in place by the settings handlers. */
  class Store {
    var entries: Meta

    constructor(initial: Meta)
      ensures entries == initial
    {
      entries := initial;
    }

    function Get(user: int, key: string): string
      reads this
    {
      Lookup(entries, user, key)
    }

    /** update_user_meta: the one entry takes the new value, every other entry keeps its own. */
    method Update(user: int, key: string, value: string)
      modifies this
      ensures entries == old(entries)[(user, key) := value]
      ensures Get(user, key) == value
      ensures forall u, k :: (u, k) != (user, key) ==> Get(u, k) == old(Get(u, k))
    {
      entries := entries[(user, key) := value];
    }
  }
}
