/** The provider's object store: a map from key to object whose calls may fail or be
    the last thing the process does. */
module ObjectStore {
  import opened Wrappers
  import opened Text

  type Key = string

  /** What head reports; content_length is the length of the body. The provider issues
      etag and checksum anew on every write or copy. */
  datatype Blob = Blob(body: seq<byte>, stamp: Stamp)
  datatype Stamp = Stamp(etag: Option<string>, checksum: Option<string>)

  type Objects = map<Key, Blob>

  /** How one call goes: it may raise, or the process may die, before or after the
      call took effect at the provider. */
  datatype Fault = Fine | RaiseBefore | RaiseAfter | CrashBefore | CrashAfter {
    predicate TakesEffect() {
      Fine? || RaiseAfter? || CrashAfter?
    }
  }

  datatype Reply<+T> = Returned(value: T) | Raised | Crashed

  function Answer<T>(fault: Fault, value: T): (r: Reply<T>) {
    match fault
    case Fine => Returned(value)
    case RaiseBefore => Raised
    case RaiseAfter => Raised
    case _ => Crashed
  }

  function At(objects: Objects, key: Key): (b: Option<Blob>) {
    if key in objects then Some(objects[key]) else None
  }

  /** Copying a missing object raises; otherwise the body is kept and the stamp is new. */
  function AfterCopy(objects: Objects, source: Key, destination: Key, stamp: Stamp,
                     fault: Fault): (r: (Objects, Reply<()>)) {
    if source !in objects then (objects, if fault.Fine? then Raised else Answer(fault, ()))
    else if fault.TakesEffect() then
      (objects[destination := Blob(objects[source].body, stamp)], Answer(fault, ()))
    else (objects, Answer(fault, ()))
  }

  /** A copy is answered just when there was something to copy and the call went well, ends
      the process just when the call does, and writes just when it took effect. */
  lemma CopiedExactlyWhen(objects: Objects, source: Key, destination: Key, stamp: Stamp, fault: Fault)
    ensures var (after, reply) := AfterCopy(objects, source, destination, stamp, fault);
            && (reply == Returned(()) <==> source in objects && fault == Fine)
            && (reply == Crashed <==> fault in {CrashBefore, CrashAfter})
            && after
               == if source in objects && fault in {Fine, RaiseAfter, CrashAfter}
                  then objects[destination := Blob(objects[source].body, stamp)] else objects
  {
  }

  /** A deletion is answered whether or not there was anything to delete. */
  lemma DeletedExactlyWhen(objects: Objects, key: Key, fault: Fault)
    ensures var (after, reply) := AfterDelete(objects, key, fault);
            && (reply == Returned(()) <==> fault == Fine)
            && (reply == Crashed <==> fault in {CrashBefore, CrashAfter})
            && (key in after <==> key in objects && fault in {RaiseBefore, CrashBefore})
            && forall other | other != key :: At(after, other) == At(objects, other)
  {
  }

  function AfterDelete(objects: Objects, key: Key, fault: Fault): (r: (Objects, Reply<()>)) {
    (if fault.TakesEffect() then objects - {key} else objects, Answer(fault, ()))
  }

  class ObjectStorage {
    var objects: Objects

    constructor (objects: Objects)
      ensures this.objects == objects
    {
      this.objects := objects;
    }

    method Head(key: Key, fault: Fault) returns (r: Reply<Option<Blob>>)
      ensures r == Answer(fault, At(objects, key))
    {
      r := Answer(fault, At(objects, key));
    }

    method Copy(source: Key, destination: Key, stamp: Stamp, fault: Fault) returns (r: Reply<()>)
      modifies this
      ensures (objects, r) == AfterCopy(old(objects), source, destination, stamp, fault)
    {
      if source !in objects {
        return if fault.Fine? then Raised else Answer(fault, ());
      }
      if fault.TakesEffect() {
        objects := objects[destination := Blob(objects[source].body, stamp)];
      }
      r := Answer(fault, ());
    }

    method Delete(key: Key, fault: Fault) returns (r: Reply<()>)
      modifies this
      ensures (objects, r) == AfterDelete(old(objects), key, fault)
    {
      if fault.TakesEffect() {
        objects := objects - {key};
      }
      r := Answer(fault, ());
    }
  }
}
