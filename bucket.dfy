/** eventbus/bucket.go: the handlers of one topic, keyed by handler name. */
module Buckets {
  import opened Wrappers

  /** An `EventHandler`: its `Name()`, and an identity standing for its callback. */
  datatype Handler = Handler(name: string, id: nat)

  datatype BucketError = ConflictName  // "conflict name"

  /** `type bucket map[string]EventHandler`, a map shared by reference. */
  class Bucket {
    var handlers: map<string, Handler>

    /** Every handler is stored under its own name, so a bucket holds at most one handler per name. */
    ghost predicate Valid()
      reads this
    {
      forall name :: name in handlers ==> handlers[name].name == name
    }

    /** `newBucket()` */
    constructor ()
      ensures handlers == map[] && Valid()
    {
      handlers := map[];
    }

    /** `add(h)`: refuses a name already present, otherwise stores `h` under its name. */
    method Add(h: Handler) returns (err: Option<BucketError>)
      modifies this
      ensures err.Some? <==> h.name in old(handlers)
      ensures err.Some? ==> err == Some(ConflictName) && handlers == old(handlers)
      ensures err.None? ==> handlers == old(handlers)[h.name := h]
      ensures old(Valid()) ==> Valid()
    {
      if h.name in handlers {
        return Some(ConflictName);
      }
      handlers := handlers[h.name := h];
      return None;
    }

    /** `remove(h)`: deletes the name of `h`, if present; any handler stored under that name goes. */
    method Remove(h: Handler)
      modifies this
      ensures handlers == old(handlers) - {h.name}
      ensures old(Valid()) ==> Valid()
    {
      handlers := handlers - {h.name};
    }

    /** `deepcopy()`: a new bucket filled entry by entry with the same handlers. */
    method DeepCopy() returns (copy: Bucket)
      ensures fresh(copy) && copy.handlers == handlers
      ensures Valid() ==> copy.Valid()
    {
      copy := new Bucket();
      var names := handlers.Keys;
      while names != {}
        invariant names <= handlers.Keys
        invariant copy.handlers == map name | name in handlers.Keys - names :: handlers[name]
        decreases names
      {
        var name :| name in names;
        copy.handlers := copy.handlers[name := handlers[name]];
        names := names - {name};
      }
    }
  }

  /** A copy taken before an `add` or a `remove` keeps the handlers it was taken with: the copy is
      a new bucket, which neither of them touches. */
  method CopyOutlivesChanges(b: Bucket, added: Handler, removed: Handler) returns (copy: Bucket)
    modifies b
    ensures copy.handlers == old(b.handlers)
    ensures b.handlers == (if added.name in old(b.handlers) then old(b.handlers) else old(b.handlers)[added.name := added]) - {removed.name}
  {
    copy := b.DeepCopy();
    var _ := b.Add(added);
    b.Remove(removed);
  }
}
