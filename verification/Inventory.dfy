/** compare_inventory: the files the database knows against the objects a provider holds. */
module Inventory {
  import opened Wrappers

  datatype File = File(key: string, length: int, active: bool)
  datatype Object = Object(key: string, length: int)

  datatype Kind = Matched | ProviderMissing | DbMissing | SizeMismatch | DuplicateMapping | OrphanObject
  datatype Verdict = Verdict(kind: Kind, key: string, recorded: Option<int>, observed: Option<int>)

  // ------------------------------------------------------------ what a key gets

  function RowsOf(files: seq<File>, key: string): (rows: seq<File>) {
    if files == [] then []
    else RowsOf(files[..|files| - 1], key) + (if files[|files| - 1].key == key then [files[|files| - 1]] else [])
  }

  /** The last object of a key is the one a dict comprehension keeps. */
  function ObjectOf(objects: seq<Object>, key: string): (found: Option<Object>) {
    if objects == [] then None
    else if objects[|objects| - 1].key == key then Some(objects[|objects| - 1])
    else ObjectOf(objects[..|objects| - 1], key)
  }

  /** The verdict of the first loop on a key with these rows and this object. */
  function OfFiles(key: string, rows: seq<File>, found: Option<Object>): (verdicts: seq<Verdict>) {
    if |rows| > 1 then [Verdict(DuplicateMapping, key, None, None)]
    else if |rows| == 0 || !rows[0].active then []
    else
      match found
      case None => [Verdict(ProviderMissing, key, Some(rows[0].length), None)]
      case Some(o) =>
        var kind := if o.length != rows[0].length then SizeMismatch else Matched;
        [Verdict(kind, key, Some(rows[0].length), Some(o.length))]
  }

  predicate Known(key: string, prefixes: seq<string>) {
    exists p | p in prefixes :: p <= key
  }

  /** The verdict of the second loop: keys with exactly one row were taken out before. */
  function OfObjects(key: string, rows: seq<File>, found: Option<Object>,
                     prefixes: seq<string>): (verdicts: seq<Verdict>) {
    if |rows| == 1 || found.None? then []
    else [Verdict(if Known(key, prefixes) then DbMissing else OrphanObject, key, None, Some(found.value.length))]
  }

  // -------------------------------------------------------------- the two loops

  /** The keys of the files in the order in which they first appear. */
  function FileKeys(files: seq<File>): (keys: seq<string>) {
    if files == [] then []
    else Extended(FileKeys(files[..|files| - 1]), files[|files| - 1].key)
  }

  function ObjectKeys(objects: seq<Object>): (keys: seq<string>) {
    if objects == [] then []
    else Extended(ObjectKeys(objects[..|objects| - 1]), objects[|objects| - 1].key)
  }

  function Extended(keys: seq<string>, key: string): (after: seq<string>) {
    if key in keys then keys else keys + [key]
  }

  function FirstLoop(files: seq<File>, objects: seq<Object>, keys: seq<string>): (verdicts: seq<Verdict>) {
    if keys == [] then []
    else
      var key := keys[|keys| - 1];
      FirstLoop(files, objects, keys[..|keys| - 1]) + OfFiles(key, RowsOf(files, key), ObjectOf(objects, key))
  }

  function SecondLoop(files: seq<File>, objects: seq<Object>, prefixes: seq<string>, keys: seq<string>)
    : (verdicts: seq<Verdict>)
  {
    if keys == [] then []
    else
      var key := keys[|keys| - 1];
      SecondLoop(files, objects, prefixes, keys[..|keys| - 1])
      + OfObjects(key, RowsOf(files, key), ObjectOf(objects, key), prefixes)
  }

  function Compared(files: seq<File>, objects: seq<Object>, prefixes: seq<string>): (verdicts: seq<Verdict>) {
    FirstLoop(files, objects, FileKeys(files)) + SecondLoop(files, objects, prefixes, ObjectKeys(objects))
  }

  /** What is left of the objects' dict after the first loop walked these keys. */
  function Left(found: map<string, Object>, files: seq<File>, walked: seq<string>): (left: map<string, Object>) {
    map k | k in found && !(k in walked && |RowsOf(files, k)| == 1) :: found[k]
  }

  lemma LeftNext(found: map<string, Object>, files: seq<File>, keys: seq<string>, i: nat)
    requires i < |keys| && keys[i] !in keys[..i]
    ensures var left := Left(found, files, keys[..i]);
            && Left(found, files, keys[..i + 1]) == (if |RowsOf(files, keys[i])| == 1 then left - {keys[i]} else left)
            && (keys[i] in left <==> keys[i] in found)
            && (keys[i] in left ==> left[keys[i]] == found[keys[i]])
  {
    assert forall k :: k in keys[..i + 1] <==> k in keys[..i] || k == keys[i];
  }

  lemma LoopNext(files: seq<File>, objects: seq<Object>, prefixes: seq<string>, keys: seq<string>, i: nat)
    requires i < |keys|
    ensures FirstLoop(files, objects, keys[..i + 1])
         == FirstLoop(files, objects, keys[..i]) + OfFiles(keys[i], RowsOf(files, keys[i]), ObjectOf(objects, keys[i]))
    ensures SecondLoop(files, objects, prefixes, keys[..i + 1])
         == SecondLoop(files, objects, prefixes, keys[..i])
            + OfObjects(keys[i], RowsOf(files, keys[i]), ObjectOf(objects, keys[i]), prefixes)
  {
    assert keys[..i + 1][..i] == keys[..i];
  }

  /** What the second loop finds of a key in the objects' dict. */
  function LeftOf(files: seq<File>, objects: seq<Object>, key: string): (left: Option<Object>) {
    if |RowsOf(files, key)| == 1 then None else ObjectOf(objects, key)
  }

  lemma LeftHolds(files: seq<File>, objects: seq<Object>, found: map<string, Object>, key: string)
    requires forall k :: ObjectOf(objects, k) == if k in found then Some(found[k]) else None
    ensures var left := Left(found, files, FileKeys(files));
            LeftOf(files, objects, key) == if key in left then Some(left[key]) else None
  {
    FileKeysHold(files, key);
  }

  method CompareInventory(files: seq<File>, objects: seq<Object>, prefixes: seq<string>) returns (results: seq<Verdict>)
    ensures results == Compared(files, objects, prefixes)
  {
    var order, fileRows := GroupFiles(files);
    var names, found := IndexObjects(objects);
    var first, left := CompareFiles(files, objects, order, fileRows, found);
    forall key
      ensures LeftOf(files, objects, key) == if key in left then Some(left[key]) else None
    {
      LeftHolds(files, objects, found, key);
    }
    var second := CompareObjects(files, objects, prefixes, names, left);
    return first + second;
  }

  /** The second loop. */
  method CompareObjects(ghost files: seq<File>, ghost objects: seq<Object>, prefixes: seq<string>, names: seq<string>,
                        left: map<string, Object>)
    returns (results: seq<Verdict>)
    requires forall k :: LeftOf(files, objects, k) == if k in left then Some(left[k]) else None
    ensures results == SecondLoop(files, objects, prefixes, names)
  {
    results := [];
    for i := 0 to |names|
      invariant results == SecondLoop(files, objects, prefixes, names[..i])
    {
      var key := names[i];
      LoopNext(files, objects, prefixes, names, i);
      assert LeftOf(files, objects, key) == if key in left then Some(left[key]) else None;
      if key in left {
        var kind := if Known(key, prefixes) then DbMissing else OrphanObject;
        results := results + [Verdict(kind, key, None, Some(left[key].length))];
      }
    }
    assert names[..|names|] == names;
  }

  /** The first loop; what it leaves of the objects goes to the second. */
  method CompareFiles(ghost files: seq<File>, ghost objects: seq<Object>, order: seq<string>,
                      fileRows: map<string, seq<File>>,
                      found: map<string, Object>)
    returns (results: seq<Verdict>, left: map<string, Object>)
    requires order == FileKeys(files) && forall k | k in order :: k in fileRows && fileRows[k] == RowsOf(files, k)
    requires forall k :: ObjectOf(objects, k) == if k in found then Some(found[k]) else None
    ensures results == FirstLoop(files, objects, order)
    ensures left == Left(found, files, order)
  {
    results, left := [], found;
    for i := 0 to |order|
      invariant results == FirstLoop(files, objects, order[..i])
      invariant left == Left(found, files, order[..i])
    {
      var key := order[i];
      var rows := fileRows[key];
      FileKeysHold(files, key);
      FileKeysOnce(files, i);
      LeftNext(found, files, order, i);
      LoopNext(files, objects, [], order, i);
      if |rows| > 1 {
        results := results + [Verdict(DuplicateMapping, key, None, None)];
        continue;
      }
      var provider := if key in left then Some(left[key]) else None;
      left := left - {key};
      if !rows[0].active {
        continue;
      }
      if provider.None? {
        results := results + [Verdict(ProviderMissing, key, Some(rows[0].length), None)];
      } else if provider.value.length != rows[0].length {
        results := results + [Verdict(SizeMismatch, key, Some(rows[0].length), Some(provider.value.length))];
      } else {
        results := results + [Verdict(Matched, key, Some(rows[0].length), Some(provider.value.length))];
      }
    }
    assert order[..|order|] == order;
  }

  /** setdefault and append; order is that of the dict. */
  method GroupFiles(files: seq<File>) returns (order: seq<string>, rows: map<string, seq<File>>)
    ensures order == FileKeys(files)
    ensures forall k :: k in rows <==> k in order
    ensures forall k | k in rows :: rows[k] == RowsOf(files, k)
  {
    order, rows := [], map[];
    for i := 0 to |files|
      invariant order == FileKeys(files[..i])
      invariant forall k :: k in rows <==> k in order
      invariant forall k :: RowsOf(files[..i], k) == if k in rows then rows[k] else []
    {
      var row := files[i];
      assert files[..i + 1][..i] == files[..i];
      if row.key !in rows {
        order := order + [row.key];
        rows := rows[row.key := []];
      }
      rows := rows[row.key := rows[row.key] + [row]];
    }
    assert files[..|files|] == files;
  }

  method IndexObjects(objects: seq<Object>) returns (order: seq<string>, rows: map<string, Object>)
    ensures order == ObjectKeys(objects)
    ensures forall k :: k in rows <==> k in order
    ensures forall k :: ObjectOf(objects, k) == if k in rows then Some(rows[k]) else None
  {
    order, rows := [], map[];
    for i := 0 to |objects|
      invariant order == ObjectKeys(objects[..i])
      invariant forall k :: k in rows <==> k in order
      invariant forall k :: ObjectOf(objects[..i], k) == if k in rows then Some(rows[k]) else None
    {
      var row := objects[i];
      assert objects[..i + 1][..i] == objects[..i];
      if row.key !in rows {
        order := order + [row.key];
      }
      rows := rows[row.key := row];
    }
    assert objects[..|objects|] == objects;
  }

  lemma {:induction false} FileKeysHold(files: seq<File>, key: string)
    ensures key in FileKeys(files) <==> RowsOf(files, key) != []
  {
    if files != [] {
      FileKeysHold(files[..|files| - 1], key);
    }
  }

  lemma {:induction false} ObjectKeysHold(objects: seq<Object>, key: string)
    ensures key in ObjectKeys(objects) <==> ObjectOf(objects, key).Some?
  {
    if objects != [] {
      ObjectKeysHold(objects[..|objects| - 1], key);
    }
  }

  predicate Distinct(keys: seq<string>) {
    forall i, j | 0 <= i < j < |keys| :: keys[i] != keys[j]
  }

  lemma {:induction false} FileKeysDistinct(files: seq<File>)
    ensures Distinct(FileKeys(files))
  {
    if files != [] {
      FileKeysDistinct(files[..|files| - 1]);
    }
  }

  lemma {:induction false} ObjectKeysDistinct(objects: seq<Object>)
    ensures Distinct(ObjectKeys(objects))
  {
    if objects != [] {
      ObjectKeysDistinct(objects[..|objects| - 1]);
    }
  }

  lemma FileKeysOnce(files: seq<File>, i: nat)
    requires i < |FileKeys(files)|
    ensures FileKeys(files)[i] !in FileKeys(files)[..i]
  {
    FileKeysDistinct(files);
  }

  // -------------------------------------------------- every key its verdicts

  /** All verdicts a key gets. */
  function VerdictsOf(files: seq<File>, objects: seq<Object>, prefixes: seq<string>,
                      key: string): (verdicts: seq<Verdict>) {
    OfFiles(key, RowsOf(files, key), ObjectOf(objects, key))
    + OfObjects(key, RowsOf(files, key), ObjectOf(objects, key), prefixes)
  }

  function On(verdicts: seq<Verdict>, key: string): (of: seq<Verdict>) {
    if verdicts == [] then []
    else On(verdicts[..|verdicts| - 1], key)
         + (if verdicts[|verdicts| - 1].key == key then [verdicts[|verdicts| - 1]] else [])
  }

  lemma {:induction false} OnBoth(a: seq<Verdict>, b: seq<Verdict>, key: string)
    ensures On(a + b, key) == On(a, key) + On(b, key)
  {
    if b == [] {
      assert a + b == a;
    } else {
      assert (a + b)[..|a + b| - 1] == a + b[..|b| - 1];
      OnBoth(a, b[..|b| - 1], key);
    }
  }

  lemma OnOne(v: Verdict, key: string)
    ensures On([v], key) == if v.key == key then [v] else []
  {
    assert [v][..0] == [];
  }

  lemma OnKeyOfFiles(key: string, rows: seq<File>, found: Option<Object>, wanted: string)
    ensures On(OfFiles(key, rows, found), wanted) == if key == wanted then OfFiles(key, rows, found) else []
  {
    var verdicts := OfFiles(key, rows, found);
    if verdicts != [] {
      assert verdicts == [verdicts[0]];
      OnOne(verdicts[0], wanted);
    }
  }

  lemma OnKeyOfObjects(key: string, rows: seq<File>, found: Option<Object>, prefixes: seq<string>, wanted: string)
    ensures On(OfObjects(key, rows, found, prefixes), wanted)
         == if key == wanted then OfObjects(key, rows, found, prefixes) else []
  {
    var verdicts := OfObjects(key, rows, found, prefixes);
    if verdicts != [] {
      assert verdicts == [verdicts[0]];
      OnOne(verdicts[0], wanted);
    }
  }

  lemma {:induction false} OnLoops(files: seq<File>, objects: seq<Object>, prefixes: seq<string>, keys: seq<string>,
                                   key: string)
    requires Distinct(keys)
    ensures On(FirstLoop(files, objects, keys), key)
         == if key in keys then OfFiles(key, RowsOf(files, key), ObjectOf(objects, key)) else []
    ensures On(SecondLoop(files, objects, prefixes, keys), key)
         == if key in keys then OfObjects(key, RowsOf(files, key), ObjectOf(objects, key), prefixes) else []
  {
    if keys != [] {
      var last, before := keys[|keys| - 1], keys[..|keys| - 1];
      OnLoops(files, objects, prefixes, before, key);
      OnKeyOfFiles(last, RowsOf(files, last), ObjectOf(objects, last), key);
      OnKeyOfObjects(last, RowsOf(files, last), ObjectOf(objects, last), prefixes, key);
      OnBoth(FirstLoop(files, objects, before), OfFiles(last, RowsOf(files, last), ObjectOf(objects, last)), key);
      OnBoth(SecondLoop(files, objects, prefixes, before),
             OfObjects(last, RowsOf(files, last), ObjectOf(objects, last), prefixes), key);
    }
  }

  lemma OnFirstLoop(files: seq<File>, objects: seq<Object>, key: string)
    ensures On(FirstLoop(files, objects, FileKeys(files)), key)
            == OfFiles(key, RowsOf(files, key), ObjectOf(objects, key))
  {
    FileKeysDistinct(files);
    OnLoops(files, objects, [], FileKeys(files), key);
    FileKeysHold(files, key);
  }

  lemma OnSecondLoop(files: seq<File>, objects: seq<Object>, prefixes: seq<string>, key: string)
    ensures On(SecondLoop(files, objects, prefixes, ObjectKeys(objects)), key)
         == OfObjects(key, RowsOf(files, key), ObjectOf(objects, key), prefixes)
  {
    ObjectKeysDistinct(objects);
    OnLoops(files, objects, prefixes, ObjectKeys(objects), key);
    ObjectKeysHold(objects, key);
  }

  /** The results on a key depend on its own rows and object alone: one row that is active
      gets exactly one verdict, one that is not none at all, several a duplicate mapping and
      their object its own, and a key without rows what its object is. */
  lemma KeyGetsItsVerdicts(files: seq<File>, objects: seq<Object>, prefixes: seq<string>, key: string)
    ensures On(Compared(files, objects, prefixes), key) == VerdictsOf(files, objects, prefixes, key)
    ensures |RowsOf(files, key)| == 1 ==>
              |On(Compared(files, objects, prefixes), key)| == if RowsOf(files, key)[0].active then 1 else 0
  {
    OnFirstLoop(files, objects, key);
    OnSecondLoop(files, objects, prefixes, key);
    OnBoth(FirstLoop(files, objects, FileKeys(files)), SecondLoop(files, objects, prefixes, ObjectKeys(objects)), key);
  }

  // ------------------------------------------------- what each verdict means

  /** The only file of its key. */
  predicate Alone(files: seq<File>, i: nat)
    requires i < |files|
  {
    forall j | 0 <= j < |files| && j != i :: files[j].key != files[i].key
  }

  /** The last object of its key. */
  predicate Last(objects: seq<Object>, j: nat)
    requires j < |objects|
  {
    forall k | j < k < |objects| :: objects[k].key != objects[j].key
  }

  lemma {:induction false} RowsOfMembers(files: seq<File>, key: string)
    ensures RowsOf(files, key) == [] <==> forall f | f in files :: f.key != key
    ensures forall i: nat | i < |files| && Alone(files, i) && files[i].key == key :: RowsOf(files, key) == [files[i]]
    ensures |RowsOf(files, key)| == 1 ==>
              exists i: nat | i < |files| :: Alone(files, i) && files[i].key == key && RowsOf(files, key) == [files[i]]
  {
    if files != [] {
      var n := |files| - 1;
      var before, last := files[..n], files[n];
      assert files == before + [last];
      RowsOfMembers(before, key);
      forall i: nat | i < |files| && Alone(files, i) && files[i].key == key
        ensures RowsOf(files, key) == [files[i]]
      {
        if i < n {
          assert Alone(before, i) && before[i] == files[i];
        } else {
          assert forall f | f in before :: f.key != key;
        }
      }
      if |RowsOf(files, key)| == 1 {
        if last.key == key {
          assert Alone(files, n);
        } else {
          var i: nat :| i < n && Alone(before, i) && before[i].key == key && RowsOf(before, key) == [before[i]];
          assert Alone(files, i);
        }
      }
    }
  }

  lemma {:induction false} ObjectOfIsTheLast(objects: seq<Object>, key: string)
    ensures ObjectOf(objects, key).None? <==> forall o | o in objects :: o.key != key
    ensures ObjectOf(objects, key).Some? ==>
              exists j: nat | j < |objects| ::
                Last(objects, j) && objects[j].key == key && ObjectOf(objects, key) == Some(objects[j])
    ensures forall j: nat | j < |objects| && Last(objects, j) && objects[j].key == key ::
              ObjectOf(objects, key) == Some(objects[j])
  {
    if objects != [] {
      var n := |objects| - 1;
      var before, last := objects[..n], objects[n];
      assert objects == before + [last];
      ObjectOfIsTheLast(before, key);
      if last.key != key && ObjectOf(before, key).Some? {
        var j: nat :| j < n && Last(before, j) && before[j].key == key && ObjectOf(before, key) == Some(before[j]);
        assert Last(objects, j);
      }
      forall j: nat | j < |objects| && Last(objects, j) && objects[j].key == key
        ensures ObjectOf(objects, key) == Some(objects[j])
      {
        if j < n {
          assert Last(before, j) && before[j] == objects[j];
        }
      }
      assert last.key == key ==> Last(objects, n);
    }
  }

  lemma VerdictIsOfItsKey(files: seq<File>, objects: seq<Object>, prefixes: seq<string>, v: Verdict)
    ensures v in Compared(files, objects, prefixes) <==>
              || v in OfFiles(v.key, RowsOf(files, v.key), ObjectOf(objects, v.key))
              || v in OfObjects(v.key, RowsOf(files, v.key), ObjectOf(objects, v.key), prefixes)
  {
    OnCounts(Compared(files, objects, prefixes), v);
    KeyGetsItsVerdicts(files, objects, prefixes, v.key);
    var one := OfFiles(v.key, RowsOf(files, v.key), ObjectOf(objects, v.key));
    var two := OfObjects(v.key, RowsOf(files, v.key), ObjectOf(objects, v.key), prefixes);
    assert VerdictsOf(files, objects, prefixes, v.key) == one + two;
    assert v in one + two <==> v in one || v in two;
  }

  /** A file that is alone and active is matched with the last object of its key: as many
      bytes, other bytes, or none at all. */
  lemma FileVerdictsExactlyWhen(files: seq<File>, objects: seq<Object>, prefixes: seq<string>, key: string,
                                recorded: Option<int>, observed: Option<int>)
    ensures var verdicts := Compared(files, objects, prefixes);
            && (Verdict(Matched, key, recorded, observed) in verdicts <==>
                  exists i: nat, j: nat | i < |files| && j < |objects| && files[i].key == objects[j].key == key ::
                    Alone(files, i) && files[i].active && Last(objects, j) && files[i].length == objects[j].length
                    && recorded == Some(files[i].length) && observed == Some(objects[j].length))
            && (Verdict(SizeMismatch, key, recorded, observed) in verdicts <==>
                  exists i: nat, j: nat | i < |files| && j < |objects| && files[i].key == objects[j].key == key ::
                    Alone(files, i) && files[i].active && Last(objects, j) && files[i].length != objects[j].length
                    && recorded == Some(files[i].length) && observed == Some(objects[j].length))
            && (Verdict(ProviderMissing, key, recorded, observed) in verdicts <==>
                  observed == None && (forall o | o in objects :: o.key != key)
                  && exists i: nat | i < |files| ::
                       files[i].key == key && Alone(files, i) && files[i].active && recorded == Some(files[i].length))
  {
    RowsOfMembers(files, key);
    ObjectOfIsTheLast(objects, key);
    VerdictIsOfItsKey(files, objects, prefixes, Verdict(Matched, key, recorded, observed));
    VerdictIsOfItsKey(files, objects, prefixes, Verdict(SizeMismatch, key, recorded, observed));
    VerdictIsOfItsKey(files, objects, prefixes, Verdict(ProviderMissing, key, recorded, observed));
  }

  ghost predicate HasItsFile(files: seq<File>, key: string) {
    exists i: nat | i < |files| :: files[i].key == key && Alone(files, i)
  }

  /** Files that share a key are duplicates, once for all of them. */
  lemma DuplicateExactlyWhen(files: seq<File>, objects: seq<Object>, prefixes: seq<string>, key: string,
                             recorded: Option<int>, observed: Option<int>)
    ensures Verdict(DuplicateMapping, key, recorded, observed) in Compared(files, objects, prefixes)
       <==> recorded == None && observed == None && !HasItsFile(files, key) && exists f | f in files :: f.key == key
  {
    RowsOfMembers(files, key);
    VerdictIsOfItsKey(files, objects, prefixes, Verdict(DuplicateMapping, key, recorded, observed));
  }

  /** The last object of a key that is not one file's alone is missing in the database or an
      orphan, by its prefix. */
  lemma ObjectVerdictsExactlyWhen(files: seq<File>, objects: seq<Object>, prefixes: seq<string>, key: string,
                                  kind: Kind, recorded: Option<int>, observed: Option<int>)
    requires kind in {DbMissing, OrphanObject}
    ensures Verdict(kind, key, recorded, observed) in Compared(files, objects, prefixes)
       <==> && recorded == None && !HasItsFile(files, key)
            && (kind == DbMissing <==> exists p | p in prefixes :: p <= key)
            && exists j: nat | j < |objects| ::
                 objects[j].key == key && Last(objects, j) && observed == Some(objects[j].length)
  {
    RowsOfMembers(files, key);
    assert |RowsOf(files, key)| == 1 <==> HasItsFile(files, key);
    ObjectOfIsTheLast(objects, key);
    VerdictIsOfItsKey(files, objects, prefixes, Verdict(kind, key, recorded, observed));
  }

  // ------------------------------------------------------------ order is nothing

  lemma {:induction false} OnCounts(verdicts: seq<Verdict>, v: Verdict)
    ensures multiset(On(verdicts, v.key))[v] == multiset(verdicts)[v]
  {
    if verdicts != [] {
      var before, last := verdicts[..|verdicts| - 1], verdicts[|verdicts| - 1];
      assert verdicts == before + [last];
      OnCounts(before, v);
    }
  }

  lemma {:induction false} RowsCount(files: seq<File>, key: string, f: File)
    ensures multiset(RowsOf(files, key))[f] == if f.key == key then multiset(files)[f] else 0
  {
    if files != [] {
      var before, last := files[..|files| - 1], files[|files| - 1];
      assert files == before + [last];
      RowsCount(before, key, f);
    }
  }

  /** The objects of one key are the same object. */
  ghost predicate OneObjectAKey(objects: seq<Object>) {
    forall a, b | a in objects && b in objects && a.key == b.key :: a == b
  }

  lemma {:induction false} ObjectOfHolds(objects: seq<Object>, o: Object)
    requires OneObjectAKey(objects)
    ensures ObjectOf(objects, o.key) == Some(o) <==> o in objects
    ensures ObjectOf(objects, o.key).Some? ==> ObjectOf(objects, o.key).value in objects
  {
    if objects != [] {
      var before, last := objects[..|objects| - 1], objects[|objects| - 1];
      assert objects == before + [last];
      assert forall x :: x in objects <==> x in before || x == last;
      ObjectOfHolds(before, o);
    }
  }

  lemma {:induction false} ObjectOfHasKey(objects: seq<Object>, key: string)
    ensures ObjectOf(objects, key).Some? ==> ObjectOf(objects, key).value.key == key
  {
    if objects != [] {
      ObjectOfHasKey(objects[..|objects| - 1], key);
    }
  }

  lemma SameOneRow(a: seq<File>, b: seq<File>)
    requires multiset(a) == multiset(b)
    ensures |a| == |b| && (|a| == 1 ==> a == b)
  {
    assert |multiset(a)| == |a| && |multiset(b)| == |b|;
    if |a| == 1 {
      assert a[0] in multiset(b);
    }
  }

  lemma SameVerdicts(files: seq<File>, files2: seq<File>, objects: seq<Object>, objects2: seq<Object>,
                     prefixes: seq<string>, key: string)
    requires multiset(files) == multiset(files2) && multiset(objects) == multiset(objects2) && OneObjectAKey(objects)
    ensures VerdictsOf(files, objects, prefixes, key) == VerdictsOf(files2, objects2, prefixes, key)
  {
    forall f
      ensures multiset(RowsOf(files, key))[f] == multiset(RowsOf(files2, key))[f]
    {
      RowsCount(files, key, f);
      RowsCount(files2, key, f);
    }
    assert multiset(RowsOf(files, key)) == multiset(RowsOf(files2, key));
    SameOneRow(RowsOf(files, key), RowsOf(files2, key));
    forall o
      ensures o in objects <==> o in objects2
    {
      assert o in multiset(objects) <==> o in multiset(objects2);
    }
    assert OneObjectAKey(objects2);
    SameObject(objects, objects2, key);
    SameObject(objects2, objects, key);
  }

  lemma SameObject(objects: seq<Object>, objects2: seq<Object>, key: string)
    requires OneObjectAKey(objects) && OneObjectAKey(objects2) && forall o :: o in objects <==> o in objects2
    ensures ObjectOf(objects, key).Some? ==> ObjectOf(objects2, key) == ObjectOf(objects, key)
  {
    ObjectOfHasKey(objects, key);
    if ObjectOf(objects, key).Some? {
      ObjectOfHolds(objects, ObjectOf(objects, key).value);
      ObjectOfHolds(objects2, ObjectOf(objects, key).value);
    }
  }

  /** Listing the files or the objects in another order only permutes the results. */
  lemma OrderIsNothing(files: seq<File>, files2: seq<File>, objects: seq<Object>, objects2: seq<Object>,
                       prefixes: seq<string>)
    requires multiset(files) == multiset(files2) && multiset(objects) == multiset(objects2) && OneObjectAKey(objects)
    ensures multiset(Compared(files, objects, prefixes)) == multiset(Compared(files2, objects2, prefixes))
  {
    forall v: Verdict
      ensures multiset(Compared(files, objects, prefixes))[v] == multiset(Compared(files2, objects2, prefixes))[v]
    {
      OnCounts(Compared(files, objects, prefixes), v);
      OnCounts(Compared(files2, objects2, prefixes), v);
      KeyGetsItsVerdicts(files, objects, prefixes, v.key);
      KeyGetsItsVerdicts(files2, objects2, prefixes, v.key);
      SameVerdicts(files, files2, objects, objects2, prefixes, v.key);
    }
  }

  // --------------------------------------------------------- no byte is lost

  ghost function SumOver(keys: set<string>, f: string -> int): (sum: int)
    decreases |keys|
  {
    if keys == {} then 0
    else
      var k :| k in keys;
      f(k) + SumOver(keys - {k}, f)
  }

  lemma {:induction false} SumWithout(keys: set<string>, f: string -> int, k: string)
    requires k in keys
    ensures SumOver(keys, f) == f(k) + SumOver(keys - {k}, f)
    decreases |keys|
  {
    var j :| j in keys && SumOver(keys, f) == f(j) + SumOver(keys - {j}, f);
    if j != k {
      SumWithout(keys - {j}, f, k);
      SumWithout(keys - {k}, f, j);
      assert keys - {j} - {k} == keys - {k} - {j};
    }
  }

  lemma {:induction false} SumIgnoresZeros(keys: set<string>, more: set<string>, f: string -> int)
    requires forall k | k in more :: f(k) == 0
    ensures SumOver(keys + more, f) == SumOver(keys, f)
    decreases |more|
  {
    if more == {} {
      assert keys + more == keys;
    } else {
      var k :| k in more;
      SumIgnoresZeros(keys, more - {k}, f);
      if k in keys {
        assert keys + (more - {k}) == keys + more;
      } else {
        assert keys + more - {k} == keys + (more - {k});
        SumWithout(keys + more, f, k);
      }
    }
  }

  lemma {:induction false} SumOfSums(keys: set<string>, f: string -> int, g: string -> int, both: string -> int)
    requires forall k | k in keys :: both(k) == f(k) + g(k)
    ensures SumOver(keys, both) == SumOver(keys, f) + SumOver(keys, g)
    decreases |keys|
  {
    if keys != {} {
      var k :| k in keys;
      SumWithout(keys, f, k);
      SumWithout(keys, g, k);
      SumWithout(keys, both, k);
      SumOfSums(keys - {k}, f, g, both);
    }
  }

  function Bytes(n: Option<int>): (bytes: int) {
    if n.None? then 0 else n.value
  }

  function Observed(verdicts: seq<Verdict>): (sum: int) {
    if verdicts == [] then 0
    else Observed(verdicts[..|verdicts| - 1]) + Bytes(verdicts[|verdicts| - 1].observed)
  }

  function Recorded(verdicts: seq<Verdict>): (sum: int) {
    if verdicts == [] then 0
    else Recorded(verdicts[..|verdicts| - 1]) + Bytes(verdicts[|verdicts| - 1].recorded)
  }

  lemma {:induction false} SumsOfBoth(a: seq<Verdict>, b: seq<Verdict>)
    ensures Observed(a + b) == Observed(a) + Observed(b)
    ensures Recorded(a + b) == Recorded(a) + Recorded(b)
  {
    if b == [] {
      assert a + b == a;
    } else {
      assert (a + b)[..|a + b| - 1] == a + b[..|b| - 1];
      SumsOfBoth(a, b[..|b| - 1]);
    }
  }

  /** What a key adds to the sums, by the loop that adds it. */
  function FirstObserved(files: seq<File>, objects: seq<Object>): (f: string -> int) {
    k => Observed(OfFiles(k, RowsOf(files, k), ObjectOf(objects, k)))
  }

  function SecondObserved(files: seq<File>, objects: seq<Object>, prefixes: seq<string>): (f: string -> int) {
    k => Observed(OfObjects(k, RowsOf(files, k), ObjectOf(objects, k), prefixes))
  }

  function FirstRecorded(files: seq<File>, objects: seq<Object>): (f: string -> int) {
    k => Recorded(OfFiles(k, RowsOf(files, k), ObjectOf(objects, k)))
  }

  function SetOf(keys: seq<string>): (all: set<string>) {
    set k | k in keys
  }

  lemma SetOfNext(keys: seq<string>)
    requires keys != [] && Distinct(keys)
    ensures var last, before := keys[|keys| - 1], keys[..|keys| - 1];
            last in SetOf(keys) && SetOf(keys) - {last} == SetOf(before) && Distinct(before)
  {
    var last, before := keys[|keys| - 1], keys[..|keys| - 1];
    assert keys == before + [last];
    assert forall k :: k in keys <==> k in before || k == last;
  }

  lemma {:induction false} LoopSums(files: seq<File>, objects: seq<Object>, prefixes: seq<string>, keys: seq<string>)
    requires Distinct(keys)
    ensures Observed(FirstLoop(files, objects, keys)) == SumOver(SetOf(keys), FirstObserved(files, objects))
    ensures Recorded(FirstLoop(files, objects, keys)) == SumOver(SetOf(keys), FirstRecorded(files, objects))
    ensures Observed(SecondLoop(files, objects, prefixes, keys))
            == SumOver(SetOf(keys), SecondObserved(files, objects, prefixes))
    ensures Recorded(SecondLoop(files, objects, prefixes, keys)) == 0
  {
    if keys == [] {
      assert SetOf(keys) == {};
    } else {
      var last, before := keys[|keys| - 1], keys[..|keys| - 1];
      SetOfNext(keys);
      LoopSums(files, objects, prefixes, before);
      SumsOfBoth(FirstLoop(files, objects, before), OfFiles(last, RowsOf(files, last), ObjectOf(objects, last)));
      SumsOfBoth(SecondLoop(files, objects, prefixes, before),
                 OfObjects(last, RowsOf(files, last), ObjectOf(objects, last), prefixes));
      SumWithout(SetOf(keys), FirstObserved(files, objects), last);
      SumWithout(SetOf(keys), FirstRecorded(files, objects), last);
      SumWithout(SetOf(keys), SecondObserved(files, objects, prefixes), last);
    }
  }

  predicate HiddenByInactiveRow(files: seq<File>, key: string) {
    |RowsOf(files, key)| == 1 && !RowsOf(files, key)[0].active
  }

  /** The bytes of the objects whose key is not that of one inactive row alone. */
  function VisibleBytes(files: seq<File>, objects: seq<Object>): (sum: int) {
    if objects == [] then 0
    else
      var last := objects[|objects| - 1];
      VisibleBytes(files, objects[..|objects| - 1]) + if HiddenByInactiveRow(files, last.key) then 0 else last.length
  }

  function Visible(files: seq<File>, objects: seq<Object>): (f: string -> int) {
    k =>
      var found := ObjectOf(objects, k);
      if found.None? || HiddenByInactiveRow(files, k) then 0 else found.value.length
  }

  ghost predicate DistinctObjects(objects: seq<Object>) {
    forall i, j | 0 <= i < j < |objects| :: objects[i].key != objects[j].key
  }

  lemma {:induction false} ObjectOfItsKey(objects: seq<Object>, i: nat)
    requires DistinctObjects(objects) && i < |objects|
    ensures ObjectOf(objects, objects[i].key) == Some(objects[i])
  {
    if i < |objects| - 1 {
      ObjectOfItsKey(objects[..|objects| - 1], i);
    }
  }

  lemma {:induction false} ObjectKeysAre(objects: seq<Object>, key: string)
    ensures key in ObjectKeys(objects) <==> exists i :: 0 <= i < |objects| && objects[i].key == key
  {
    if objects != [] {
      ObjectKeysAre(objects[..|objects| - 1], key);
    }
  }

  lemma {:induction false} VisibleSums(files: seq<File>, objects: seq<Object>, n: nat)
    requires DistinctObjects(objects) && n <= |objects|
    ensures VisibleBytes(files, objects[..n]) == SumOver(SetOf(ObjectKeys(objects[..n])), Visible(files, objects))
  {
    if n == 0 {
      assert SetOf(ObjectKeys(objects[..n])) == {};
    } else {
      var before, last := objects[..n - 1], objects[n - 1];
      assert objects[..n][..n - 1] == before;
      VisibleSums(files, objects, n - 1);
      ObjectOfItsKey(objects, n - 1);
      ObjectKeysAre(before, last.key);
      assert last.key !in ObjectKeys(before);
      assert SetOf(ObjectKeys(objects[..n])) - {last.key} == SetOf(ObjectKeys(before));
      SumWithout(SetOf(ObjectKeys(objects[..n])), Visible(files, objects), last.key);
    }
  }

  lemma KeyObserves(files: seq<File>, objects: seq<Object>, prefixes: seq<string>, k: string)
    ensures FirstObserved(files, objects)(k) + SecondObserved(files, objects, prefixes)(k) == Visible(files, objects)(k)
    ensures k !in FileKeys(files) || k !in ObjectKeys(objects) ==> FirstObserved(files, objects)(k) == 0
    ensures k !in ObjectKeys(objects) ==> SecondObserved(files, objects, prefixes)(k) == 0
  {
    var rows, found := RowsOf(files, k), ObjectOf(objects, k);
    ObjectKeysHold(objects, k);
    FileKeysHold(files, k);
    ObservedOfOne(OfFiles(k, rows, found));
    ObservedOfOne(OfObjects(k, rows, found, prefixes));
  }

  lemma ObservedOfOne(verdicts: seq<Verdict>)
    requires |verdicts| <= 1
    ensures Observed(verdicts) == if verdicts == [] then 0 else Bytes(verdicts[0].observed)
    ensures Recorded(verdicts) == if verdicts == [] then 0 else Bytes(verdicts[0].recorded)
  {
  }

  lemma SumElsewhere(a: set<string>, b: set<string>, f: string -> int)
    requires forall k | k !in a || k !in b :: f(k) == 0
    ensures SumOver(a, f) == SumOver(b, f)
  {
    SumIgnoresZeros(a, b - a, f);
    SumIgnoresZeros(b, a - b, f);
    assert a + (b - a) == b + (a - b);
  }

  lemma ComparedSums(files: seq<File>, objects: seq<Object>, prefixes: seq<string>)
    ensures Observed(Compared(files, objects, prefixes))
         == SumOver(SetOf(FileKeys(files)), FirstObserved(files, objects))
            + SumOver(SetOf(ObjectKeys(objects)), SecondObserved(files, objects, prefixes))
    ensures Recorded(Compared(files, objects, prefixes))
            == SumOver(SetOf(FileKeys(files)), FirstRecorded(files, objects))
  {
    FileKeysDistinct(files);
    ObjectKeysDistinct(objects);
    LoopSums(files, objects, prefixes, FileKeys(files));
    LoopSums(files, objects, prefixes, ObjectKeys(objects));
    SumsOfBoth(FirstLoop(files, objects, FileKeys(files)), SecondLoop(files, objects, prefixes, ObjectKeys(objects)));
  }

  lemma VisibleSum(files: seq<File>, objects: seq<Object>, prefixes: seq<string>)
    ensures SumOver(SetOf(FileKeys(files)), FirstObserved(files, objects))
            + SumOver(SetOf(ObjectKeys(objects)), SecondObserved(files, objects, prefixes))
         == SumOver(SetOf(ObjectKeys(objects)), Visible(files, objects))
  {
    var fs, os := SetOf(FileKeys(files)), SetOf(ObjectKeys(objects));
    var first, second, visible :=
      FirstObserved(files, objects), SecondObserved(files, objects, prefixes), Visible(files, objects);
    forall k
      ensures first(k) + second(k) == visible(k)
      ensures k !in fs || k !in os ==> first(k) == 0
    {
      KeyObserves(files, objects, prefixes, k);
    }
    SumElsewhere(fs, os, first);
    SumOfSums(os, first, second, visible);
  }

  /** No provider byte is lost or counted twice: what is observed over all results is what
      the objects hold, but for those that belong to one inactive row. */
  lemma ObservedBytesAreConserved(files: seq<File>, objects: seq<Object>, prefixes: seq<string>)
    requires DistinctObjects(objects)
    ensures Observed(Compared(files, objects, prefixes)) == VisibleBytes(files, objects)
  {
    ComparedSums(files, objects, prefixes);
    VisibleSum(files, objects, prefixes);
    VisibleSums(files, objects, |objects|);
    assert objects[..|objects|] == objects;
  }

  function SingleActive(all: seq<File>, f: File): (bytes: int) {
    if |RowsOf(all, f.key)| == 1 && f.active then f.length else 0
  }

  /** The bytes of the active rows that alone hold their key among all the files. */
  function SingleActiveBytes(files: seq<File>, all: seq<File>): (sum: int) {
    if files == [] then 0
    else SingleActiveBytes(files[..|files| - 1], all) + SingleActive(all, files[|files| - 1])
  }

  lemma {:induction false} RowsGrow(files: seq<File>, n: nat, key: string)
    requires n <= |files|
    ensures |RowsOf(files[..n], key)| <= |RowsOf(files, key)|
  {
    if n == |files| {
      assert files[..n] == files;
    } else {
      var before := files[..|files| - 1];
      assert before[..n] == files[..n];
      RowsGrow(before, n, key);
    }
  }

  lemma {:induction false} RowsAreFiles(files: seq<File>, i: nat)
    requires i < |files|
    ensures files[i] in RowsOf(files, files[i].key)
  {
    if i < |files| - 1 {
      RowsAreFiles(files[..|files| - 1], i);
    }
  }

  lemma KeyRecords(files: seq<File>, objects: seq<Object>, i: nat)
    requires i < |files|
    ensures FirstRecorded(files, objects)(files[i].key)
         == SingleActive(files, files[i])
  {
    RowsAreFiles(files, i);
    var rows, found := RowsOf(files, files[i].key), ObjectOf(objects, files[i].key);
    ObservedOfOne(OfFiles(files[i].key, rows, found));
  }

  /** A key seen before has a second row; a new one joins the keys. */
  lemma KeysBefore(files: seq<File>, n: nat)
    requires 0 < n <= |files|
    ensures var key, keys, before := files[n - 1].key, FileKeys(files[..n]), FileKeys(files[..n - 1]);
            if key in before then keys == before && |RowsOf(files, key)| >= 2
            else key in SetOf(keys) && SetOf(keys) - {key} == SetOf(before)
  {
    var key := files[n - 1].key;
    assert files[..n][..n - 1] == files[..n - 1];
    FileKeysHold(files[..n - 1], key);
    RowsGrow(files, n, key);
  }

  lemma SumGains(before: set<string>, after: set<string>, key: string, f: string -> int, gain: int)
    requires if key in before then after == before && gain == 0
             else key in after && after - {key} == before && gain == f(key)
    ensures SumOver(after, f) == SumOver(before, f) + gain
  {
    if key !in before {
      SumWithout(after, f, key);
    }
  }

  lemma NextRecorded(files: seq<File>, objects: seq<Object>, n: nat)
    requires 0 < n <= |files|
    ensures SumOver(SetOf(FileKeys(files[..n])), FirstRecorded(files, objects))
         == SumOver(SetOf(FileKeys(files[..n - 1])), FirstRecorded(files, objects)) + SingleActive(files, files[n - 1])
  {
    KeyRecords(files, objects, n - 1);
    KeysBefore(files, n);
    SumGains(SetOf(FileKeys(files[..n - 1])), SetOf(FileKeys(files[..n])), files[n - 1].key,
             FirstRecorded(files, objects), SingleActive(files, files[n - 1]));
  }

  lemma {:induction false} RecordedSums(files: seq<File>, objects: seq<Object>, n: nat)
    requires n <= |files|
    ensures SingleActiveBytes(files[..n], files) == SumOver(SetOf(FileKeys(files[..n])), FirstRecorded(files, objects))
  {
    if n == 0 {
      assert SetOf(FileKeys(files[..n])) == {};
    } else {
      RecordedSums(files, objects, n - 1);
      NextRecorded(files, objects, n);
      assert files[..n][..n - 1] == files[..n - 1];
    }
  }

  /** What is recorded over all results is what the singly mapped active rows say. */
  lemma RecordedBytesAreConserved(files: seq<File>, objects: seq<Object>, prefixes: seq<string>)
    ensures Recorded(Compared(files, objects, prefixes)) == SingleActiveBytes(files, files)
  {
    ComparedSums(files, objects, prefixes);
    RecordedSums(files, objects, |files|);
    assert files[..|files|] == files;
  }
}
