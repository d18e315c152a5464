/** The structural difference of two JSON documents, and the experiment configuration it guards. */
module ConfigDiff {
  import opened Wrappers
  import opened Decimal

  /** Python's json module also reads the three values that are no finite numbers. */
  datatype Float = Finite(x: real) | Infinity(positive: bool) | NotANumber

  datatype Json =
    | Null
    | Bool(b: bool)
    | Int(n: int)
    | Number(f: Float)
    | Text(s: string)
    | List(items: seq<Json>)
    | Dict(entries: map<string, Json>)

  type Path = seq<string>

  // ----- Looking at one place of a document ------------------------------------------------------------

  /** The child under a key; the key of a list item is its printed index. */
  function Child(j: Json, key: string): Option<Json> {
    match j
    case Dict(entries) => if key in entries then Some(entries[key]) else None
    case List(items) => if Canonical(key) && Value(key) < |items| then Some(items[Value(key)]) else None
    case _ => None
  }

  function At(j: Option<Json>, p: Path): Option<Json>
    decreases |p|
  {
    if j.None? || p == [] then j else At(Child(j.value, p[0]), p[1..])
  }

  /** What can be seen at one place without looking below it. */
  datatype Shape = Absent | Leaf(value: Json) | Items(count: nat) | Object

  function ShapeOf(j: Option<Json>): Shape {
    match j
    case None => Absent
    case Some(List(items)) => Items(|items|)
    case Some(Dict(_)) => Object
    case Some(v) => Leaf(v)
  }

  function ShapeAt(j: Json, p: Path): Shape {
    ShapeOf(At(Some(j), p))
  }

  const NAN := Leaf(Number(NotANumber))

  /** Type, length or value agree at this place. NaN does not even agree with itself. */
  predicate Same(a: Shape, b: Shape) {
    a == b && a != NAN
  }

  predicate Agree(l: Json, r: Json, p: Path) {
    Same(ShapeAt(l, p), ShapeAt(r, p))
  }

  /** The documents differ at p and nowhere above it. */
  ghost predicate Minimal(l: Json, r: Json, p: Path) {
    !Agree(l, r, p) && forall n :: 0 <= n < |p| ==> Agree(l, r, p[..n])
  }

  ghost predicate MinimalAfter(l: Json, r: Json, prefix: Path, p: Path) {
    prefix <= p && Minimal(l, r, p[|prefix|..])
  }

  /** Exactly the minimal differences, each with the prefix in front. */
  ghost predicate Reports(paths: set<Path>, l: Json, r: Json, prefix: Path) {
    forall p :: p in paths <==> MinimalAfter(l, r, prefix, p)
  }

  ghost predicate ReportsUnder(paths: set<Path>, l: Json, r: Json, prefix: Path, keys: set<string>) {
    forall p :: p in paths <==> MinimalAfter(l, r, prefix, p) && |p| > |prefix| && p[|prefix|] in keys
  }

  // ----- Minimal differences, one level at a time --------------------------------------------------------

  lemma {:induction false} ChildShape(j: Json, p: Path)
    requires p != []
    ensures ShapeAt(j, p) == ShapeOf(At(Child(j, p[0]), p[1..]))
  {
  }

  lemma {:induction false} RootDiffers(l: Json, r: Json, p: Path)
    requires !Agree(l, r, [])
    ensures Minimal(l, r, p) <==> p == []
  {
    if p != [] {
      assert p[..0] == [];
    }
  }

  lemma {:induction false} MinimalInChildren(l: Json, r: Json, p: Path, a: Json, b: Json)
    requires p != [] && Agree(l, r, []) && Child(l, p[0]) == Some(a) && Child(r, p[0]) == Some(b)
    ensures Minimal(l, r, p) <==> Minimal(a, b, p[1..])
  {
    var q := p[1..];
    assert Agree(l, r, p) <==> Agree(a, b, q);
    forall n | 0 <= n < |q| ensures Agree(l, r, p[..n + 1]) <==> Agree(a, b, q[..n]) {
      assert p[..n + 1][0] == p[0] && p[..n + 1][1..] == q[..n];
    }
    if Minimal(a, b, q) {
      forall n | 0 <= n < |p| ensures Agree(l, r, p[..n]) {
        if n == 0 {
          assert p[..0] == [];
        } else {
          assert Agree(l, r, p[..n - 1 + 1]) <==> Agree(a, b, q[..n - 1]);
        }
      }
    }
  }

  lemma {:induction false} SeenOrAbsent(j: Option<Json>)
    ensures At(j, []) == j && (ShapeOf(j) == Absent <==> j.None?)
  {
  }

  lemma {:induction false} MinimalAtMissing(l: Json, r: Json, p: Path)
    requires p != [] && Agree(l, r, []) && Child(l, p[0]).None? != Child(r, p[0]).None?
    ensures Minimal(l, r, p) <==> |p| == 1
  {
    var one := p[..1];
    assert one[0] == p[0] && one[1..] == [];
    ChildShape(l, one);
    ChildShape(r, one);
    SeenOrAbsent(Child(l, p[0]));
    SeenOrAbsent(Child(r, p[0]));
    assert !Agree(l, r, one);
    if |p| == 1 {
      assert p == one;
      assert p[..0] == [];
    }
  }

  lemma {:induction false} NothingBelowBoth(l: Json, r: Json, p: Path)
    requires p != [] && Child(l, p[0]).None? && Child(r, p[0]).None?
    ensures !Minimal(l, r, p)
  {
    ChildShape(l, p);
    ChildShape(r, p);
    assert Agree(l, r, p);
  }

  /** Adding what the two children under `key` report. */
  lemma {:induction false} AddChild(paths: set<Path>, below: set<Path>, l: Json, r: Json, prefix: Path,
                                    keys: set<string>, key: string, a: Json, b: Json)
    requires Agree(l, r, []) && Child(l, key) == Some(a) && Child(r, key) == Some(b)
    requires ReportsUnder(paths, l, r, prefix, keys) && Reports(below, a, b, prefix + [key])
    ensures ReportsUnder(paths + below, l, r, prefix, keys + {key})
  {
    forall p ensures p in below <==> MinimalAfter(l, r, prefix, p) && |p| > |prefix| && p[|prefix|] == key {
      assert prefix + [key] <= p <==> prefix <= p && |p| > |prefix| && p[|prefix|] == key;
      if prefix + [key] <= p {
        var q := p[|prefix|..];
        assert q[1..] == p[|prefix + [key]|..];
        MinimalInChildren(l, r, q, a, b);
      }
    }
  }

  /** Adding the key that only one of the two dictionaries has. */
  lemma {:induction false} AddMissing(paths: set<Path>, l: Json, r: Json, prefix: Path, keys: set<string>, key: string)
    requires Agree(l, r, []) && Child(l, key).None? != Child(r, key).None?
    requires ReportsUnder(paths, l, r, prefix, keys)
    ensures ReportsUnder(paths + {prefix + [key]}, l, r, prefix, keys + {key})
  {
    forall p ensures p == prefix + [key] <==> MinimalAfter(l, r, prefix, p) && |p| > |prefix| && p[|prefix|] == key {
      if prefix <= p && |p| > |prefix| && p[|prefix|] == key {
        MinimalAtMissing(l, r, p[|prefix|..]);
        assert |p| == |prefix| + 1 ==> p == prefix + [key];
      }
    }
  }

  /** Nothing is left once all keys that either side has are done. */
  lemma {:induction false} AllKeysDone(paths: set<Path>, l: Json, r: Json, prefix: Path, keys: set<string>)
    requires Agree(l, r, []) && ReportsUnder(paths, l, r, prefix, keys)
    requires forall key :: key !in keys ==> Child(l, key).None? && Child(r, key).None?
    ensures Reports(paths, l, r, prefix)
  {
    forall p ensures p in paths <==> MinimalAfter(l, r, prefix, p) {
      if prefix <= p {
        var q := p[|prefix|..];
        if q != [] {
          if q[0] !in keys {
            NothingBelowBoth(l, r, q);
          }
        } else {
          assert !Minimal(l, r, q);
        }
      }
    }
  }

  lemma {:induction false} RootReported(l: Json, r: Json, prefix: Path)
    requires !Agree(l, r, [])
    ensures Reports({prefix}, l, r, prefix)
  {
    forall p ensures p in {prefix} <==> MinimalAfter(l, r, prefix, p) {
      if prefix <= p {
        RootDiffers(l, r, p[|prefix|..]);
        assert |p| == |prefix| ==> p == prefix;
      }
    }
  }

  lemma {:induction false} NothingUnderNoKeys(l: Json, r: Json, prefix: Path)
    ensures ReportsUnder({}, l, r, prefix, {})
  {
  }

  // ----- changed_paths() -----------------------------------------------------------------------------------

  predicate SameType(l: Json, r: Json) {
    match l
    case Null => r.Null?
    case Bool(_) => r.Bool?
    case Int(_) => r.Int?
    case Number(_) => r.Number?
    case Text(_) => r.Text?
    case List(_) => r.List?
    case Dict(_) => r.Dict?
  }

  predicate Equal(l: Json, r: Json) {
    l == r && l != Number(NotANumber)
  }

  function PrintedUpTo(n: nat): set<string> {
    set i | 0 <= i < n :: Digits(i)
  }

  lemma {:induction false} ChildOfItem(j: Json, i: nat)
    requires j.List? && i < |j.items|
    ensures Child(j, Digits(i)) == Some(j.items[i])
  {
    ValueOfDigits(i);
  }

  lemma {:induction false} NoChildElsewhere(j: Json, key: string)
    requires j.List? && key !in PrintedUpTo(|j.items|)
    ensures Child(j, key).None?
  {
    if Canonical(key) && Value(key) < |j.items| {
      DigitsOfValue(key);
    }
  }

  method ChangedPaths(left: Json, right: Json, prefix: Path) returns (paths: set<Path>)
    ensures Reports(paths, left, right, prefix)
    decreases left, 1
  {
    if !SameType(left, right) {
      RootReported(left, right, prefix);
      return {prefix};
    }
    match left
    case Dict(entries) =>
      paths := ChangedEntries(left, right, prefix);
    case List(items) =>
      if |items| != |right.items| {
        RootReported(left, right, prefix);
        return {prefix};
      }
      paths := ChangedItems(left, right, prefix);
    case _ =>
      if Equal(left, right) {
        NothingUnderNoKeys(left, right, prefix);
        AllKeysDone({}, left, right, prefix, {});
        return {};
      }
      RootReported(left, right, prefix);
      return {prefix};
  }

  method ChangedEntries(left: Json, right: Json, prefix: Path) returns (paths: set<Path>)
    requires left.Dict? && right.Dict?
    ensures Reports(paths, left, right, prefix)
    decreases left, 0
  {
    paths := {};
    var waiting := left.entries.Keys + right.entries.Keys;
    ghost var done: set<string> := {};
    NothingUnderNoKeys(left, right, prefix);
    while waiting != {}
      invariant done + waiting == left.entries.Keys + right.entries.Keys
      invariant ReportsUnder(paths, left, right, prefix, done)
      decreases |waiting|
    {
      var key :| key in waiting;
      if key !in left.entries || key !in right.entries {
        AddMissing(paths, left, right, prefix, done, key);
        paths := paths + {prefix + [key]};
      } else {
        var below := ChangedPaths(left.entries[key], right.entries[key], prefix + [key]);
        AddChild(paths, below, left, right, prefix, done, key, left.entries[key], right.entries[key]);
        paths := paths + below;
      }
      waiting := waiting - {key};
      done := done + {key};
    }
    AllKeysDone(paths, left, right, prefix, done);
  }

  method ChangedItems(left: Json, right: Json, prefix: Path) returns (paths: set<Path>)
    requires left.List? && right.List? && |left.items| == |right.items|
    ensures Reports(paths, left, right, prefix)
    decreases left, 0
  {
    paths := {};
    var index := 0;
    NothingUnderNoKeys(left, right, prefix);
    while index < |left.items|
      invariant index <= |left.items|
      invariant ReportsUnder(paths, left, right, prefix, PrintedUpTo(index))
    {
      var below := ChangedPaths(left.items[index], right.items[index], prefix + [Digits(index)]);
      ChildOfItem(left, index);
      ChildOfItem(right, index);
      AddChild(paths, below, left, right, prefix, PrintedUpTo(index), Digits(index),
               left.items[index], right.items[index]);
      assert PrintedUpTo(index + 1) == PrintedUpTo(index) + {Digits(index)};
      paths := paths + below;
      index := index + 1;
    }
    forall key | key !in PrintedUpTo(index) ensures Child(left, key).None? && Child(right, key).None? {
      NoChildElsewhere(left, key);
      NoChildElsewhere(right, key);
    }
    AllKeysDone(paths, left, right, prefix, PrintedUpTo(index));
  }

  // ----- What the report means -------------------------------------------------------------------------------

  /** Every disagreement lies at or below a minimal one. */
  lemma {:induction false} DifferenceHasMinimalPrefix(l: Json, r: Json, p: Path) returns (q: Path)
    requires !Agree(l, r, p)
    ensures q <= p && Minimal(l, r, q)
    decreases |p|
  {
    if n :| 0 <= n < |p| && !Agree(l, r, p[..n]) {
      q := DifferenceHasMinimalPrefix(l, r, p[..n]);
    } else {
      q := p;
    }
  }

  ghost predicate NanFree(j: Json) {
    forall p :: ShapeAt(j, p) != NAN
  }

  lemma {:induction false} AgreeingChildren(l: Json, r: Json, key: string, a: Json, b: Json)
    requires forall p :: Agree(l, r, p)
    requires Child(l, key) == Some(a) && Child(r, key) == Some(b)
    ensures forall p :: Agree(a, b, p)
  {
    forall p ensures Agree(a, b, p) {
      assert ([key] + p)[1..] == p;
      assert Agree(l, r, [key] + p);
    }
  }

  lemma {:induction false} SameKeys(l: Json, r: Json, key: string)
    requires forall p :: Agree(l, r, p)
    ensures Child(l, key).None? <==> Child(r, key).None?
  {
    var one := [key];
    assert one[1..] == [] && Agree(l, r, one);
    ChildShape(l, one);
    ChildShape(r, one);
    SeenOrAbsent(Child(l, key));
    SeenOrAbsent(Child(r, key));
  }

  lemma {:induction false} AgreementIsEquality(l: Json, r: Json)
    requires forall p :: Agree(l, r, p)
    ensures l == r
    decreases l
  {
    assert Agree(l, r, []);
    match l
    case List(items) =>
      forall i | 0 <= i < |items| ensures items[i] == r.items[i] {
        ChildOfItem(l, i);
        ChildOfItem(r, i);
        AgreeingChildren(l, r, Digits(i), items[i], r.items[i]);
        AgreementIsEquality(items[i], r.items[i]);
      }
    case Dict(entries) =>
      forall key ensures key in entries <==> key in r.entries {
        SameKeys(l, r, key);
      }
      forall key | key in entries ensures entries[key] == r.entries[key] {
        AgreeingChildren(l, r, key, entries[key], r.entries[key]);
        AgreementIsEquality(entries[key], r.entries[key]);
      }
      assert entries == r.entries;
    case _ =>
  }

  /** No difference is reported if and only if the documents are equal and contain no NaN. */
  lemma {:induction false} EmptyIffEqualAndNanFree(l: Json, r: Json, paths: set<Path>)
    requires Reports(paths, l, r, [])
    ensures paths == {} <==> l == r && NanFree(l)
  {
    assert forall p: Path :: p[0..] == p;
    if paths == {} {
      forall p ensures Agree(l, r, p) {
        if !Agree(l, r, p) {
          var q := DifferenceHasMinimalPrefix(l, r, p);
          assert MinimalAfter(l, r, [], q);
        }
      }
      AgreementIsEquality(l, r);
      forall p ensures ShapeAt(l, p) != NAN {
        assert Agree(l, r, p);
      }
    }
    if l == r && NanFree(l) {
      forall p ensures p !in paths {
        assert Agree(l, r, p[0..]);
      }
    }
  }

  /** A document with a NaN differs from itself. */
  lemma {:induction false} NanDiffersFromItself()
    ensures Minimal(Number(NotANumber), Number(NotANumber), [])
  {
  }

  lemma {:induction false} ReportIsSymmetric(l: Json, r: Json, forward: set<Path>, backward: set<Path>, prefix: Path)
    requires Reports(forward, l, r, prefix) && Reports(backward, r, l, prefix)
    ensures forward == backward
  {
    forall p ensures p in forward <==> p in backward {
      if prefix <= p {
        var q := p[|prefix|..];
        assert forall x :: Agree(l, r, x) <==> Agree(r, l, x);
        assert Minimal(l, r, q) <==> Minimal(r, l, q);
      }
    }
  }

  predicate UnderSome(allowed: set<Path>, p: Path) {
    exists q :: q in allowed && q <= p
  }

  /** If everything reported is allowed, the documents agree at every place not under an allowed path. */
  lemma {:induction false} AgreeOutsideAllowed(l: Json, r: Json, paths: set<Path>, allowed: set<Path>, p: Path)
    requires Reports(paths, l, r, []) && paths <= allowed && !UnderSome(allowed, p)
    ensures Agree(l, r, p)
  {
    if !Agree(l, r, p) {
      var q := DisagreementIsReported(l, r, paths, p);
    }
  }

  lemma {:induction false} DisagreementIsReported(l: Json, r: Json, paths: set<Path>, p: Path) returns (q: Path)
    requires Reports(paths, l, r, []) && !Agree(l, r, p)
    ensures q in paths && q <= p
  {
    q := DifferenceHasMinimalPrefix(l, r, p);
    assert q[0..] == q;
    assert MinimalAfter(l, r, [], q);
  }

  // ----- build_experiment_config() ---------------------------------------------------------------------------

  const WORKERS := ["custom_config", "authentication", "password_hash_workers"]
  const CAPACITY := ["custom_config", "authentication", "password_hash_queue_capacity"]
  const ALLOWED: set<Path> := {WORKERS, CAPACITY}

  function Put(j: Json, key: string, v: Json): Json
    requires j.Dict?
  {
    Dict(j.entries[key := v])
  }

  lemma {:induction false} PutShape(j: Json, key: string, v: Json, p: Path)
    requires j.Dict?
    ensures ShapeAt(Put(j, key, v), p) == if p != [] && p[0] == key then ShapeAt(v, p[1..]) else ShapeAt(j, p)
  {
    if p != [] {
      ChildShape(j, p);
      ChildShape(Put(j, key, v), p);
    }
  }

  /** The section that the experiment edits is there. */
  predicate Editable(source: Json) {
    && source.Dict? && "custom_config" in source.entries
    && source.entries["custom_config"].Dict? && "authentication" in source.entries["custom_config"].entries
    && source.entries["custom_config"].entries["authentication"].Dict?
  }

  lemma {:induction false} EditableMeansSection(source: Json)
    ensures Editable(source) <==>
            var section := At(Some(source), ["custom_config", "authentication"]);
            section.Some? && section.value.Dict? && source.Dict?
            && At(Some(source), ["custom_config"]).value.Dict?
  {
    var path := ["custom_config", "authentication"];
    assert path[1..] == ["authentication"] && path[1..][1..] == [] && ["custom_config"][1..] == [];
    SeenOrAbsent(Child(source, "custom_config"));
    if Child(source, "custom_config").Some? {
      SeenOrAbsent(Child(Child(source, "custom_config").value, "authentication"));
    }
  }

  function Edited(source: Json, workers: int, capacity: int): Json
    requires Editable(source)
  {
    var custom := source.entries["custom_config"];
    var authentication := Put(Put(custom.entries["authentication"], "password_hash_workers", Int(workers)),
                              "password_hash_queue_capacity", Int(capacity));
    Put(source, "custom_config", Put(custom, "authentication", authentication))
  }

  lemma {:induction false} SplitPath(p: Path, a: string, b: string, c: string)
    ensures [a, b, c] <= p <==> |p| >= 3 && p[0] == a && p[1..][0] == b && p[1..][1..][0] == c
  {
    if |p| >= 3 {
      assert p[..3] == [p[0], p[1], p[2]];
    }
  }

  /** The edit changes nothing outside the two allowed paths. */
  lemma {:induction false} EditedElsewhere(source: Json, workers: int, capacity: int, p: Path)
    requires Editable(source) && !UnderSome(ALLOWED, p)
    ensures ShapeAt(Edited(source, workers, capacity), p) == ShapeAt(source, p)
  {
    var custom := source.entries["custom_config"];
    var old0 := custom.entries["authentication"];
    var old1 := Put(old0, "password_hash_workers", Int(workers));
    var old2 := Put(old1, "password_hash_queue_capacity", Int(capacity));
    var edited := Put(custom, "authentication", old2);
    assert !(WORKERS <= p) && !(CAPACITY <= p);
    SplitPath(p, "custom_config", "authentication", "password_hash_workers");
    SplitPath(p, "custom_config", "authentication", "password_hash_queue_capacity");
    PutShape(source, "custom_config", edited, p);
    if p != [] && p[0] == "custom_config" {
      var q := p[1..];
      PutShape(custom, "authentication", old2, q);
      ChildShape(source, p);
      if q != [] && q[0] == "authentication" {
        ChildShape(custom, q);
        PutShape(old1, "password_hash_queue_capacity", Int(capacity), q[1..]);
        PutShape(old0, "password_hash_workers", Int(workers), q[1..]);
      }
    }
  }

  /** The edit puts the two numbers in place. */
  lemma {:induction false} EditedThere(source: Json, workers: int, capacity: int)
    requires Editable(source)
    ensures At(Some(Edited(source, workers, capacity)), WORKERS) == Some(Int(workers))
    ensures At(Some(Edited(source, workers, capacity)), CAPACITY) == Some(Int(capacity))
  {
    var edited := Edited(source, workers, capacity);
    var custom := edited.entries["custom_config"];
    var section := custom.entries["authentication"];
    assert WORKERS[1..] == ["authentication", "password_hash_workers"]
        && WORKERS[1..][1..] == ["password_hash_workers"];
    assert CAPACITY[1..] == ["authentication", "password_hash_queue_capacity"]
        && CAPACITY[1..][1..] == ["password_hash_queue_capacity"];
    SeenOrAbsent(Child(section, "password_hash_workers"));
    SeenOrAbsent(Child(section, "password_hash_queue_capacity"));
    assert ["password_hash_workers"][1..] == [] && ["password_hash_queue_capacity"][1..] == [];
  }

  lemma {:induction false} AtSplit(j: Option<Json>, p: Path, rest: Path)
    ensures At(j, p + rest) == At(At(j, p), rest)
    decreases |p|
  {
    if p == [] {
      assert p + rest == rest;
    } else if j.Some? {
      assert (p + rest)[1..] == p[1..] + rest;
      AtSplit(Child(j.value, p[0]), p[1..], rest);
    }
  }

  lemma {:induction false} NothingBelowLeaf(j: Json, p: Path, q: Path)
    requires p < q && ShapeAt(j, p).Leaf?
    ensures ShapeAt(j, q) == Absent
  {
    var rest := q[|p|..];
    assert q == p + rest;
    AtSplit(Some(j), p, rest);
  }

  ghost predicate NanOutside(j: Json) {
    exists p :: ShapeAt(j, p) == NAN && !UnderSome(ALLOWED, p)
  }

  lemma {:induction false} EditReportsAllowedOnly(source: Json, workers: int, capacity: int, q: Path)
    requires Editable(source) && !NanOutside(source)
    requires Minimal(source, Edited(source, workers, capacity), q)
    ensures q in ALLOWED
  {
    var edited := Edited(source, workers, capacity);
    if !UnderSome(ALLOWED, q) {
      EditedElsewhere(source, workers, capacity, q);
    } else {
      var a :| a in ALLOWED && a <= q;
      EditedThere(source, workers, capacity);
      if a < q {
        assert Agree(source, edited, q[..|a|]) && q[..|a|] == a;
        NothingBelowLeaf(source, a, q);
        NothingBelowLeaf(edited, a, q);
      } else {
        assert a == q;
      }
    }
  }

  lemma {:induction false} EditPassesIffNoNanOutside(source: Json, workers: int, capacity: int, changes: set<Path>)
    requires Editable(source) && Reports(changes, source, Edited(source, workers, capacity), [])
    ensures changes - ALLOWED == {} <==> !NanOutside(source)
  {
    var edited := Edited(source, workers, capacity);
    if changes - ALLOWED == {} {
      assert changes <= ALLOWED by {
        forall q | q in changes ensures q in ALLOWED {
          assert q !in changes - ALLOWED;
        }
      }
      forall p | !UnderSome(ALLOWED, p) ensures ShapeAt(source, p) != NAN {
        AgreeOutsideAllowed(source, edited, changes, ALLOWED, p);
      }
    }
    if !NanOutside(source) {
      forall q | q in changes ensures q in ALLOWED {
        assert MinimalAfter(source, edited, [], q) && q[0..] == q;
        EditReportsAllowedOnly(source, workers, capacity, q);
      }
    }
  }

  /** Fails on bad numbers, on a source without the section and on a NaN that the edit does not
      overwrite; otherwise the result is the source with the two numbers put in place. */
  method BuildExperimentConfig(source: Json, workers: int, capacity: int) returns (r: Result<Json, string>)
    ensures r.Success? <==> workers > 0 && capacity > 0 && Editable(source) && !NanOutside(source)
    ensures r.Success? ==>
              && r.value == Edited(source, workers, capacity)
              && At(Some(r.value), ["custom_config", "authentication", "password_hash_workers"]) == Some(Int(workers))
              && At(Some(r.value), ["custom_config", "authentication", "password_hash_queue_capacity"])
                   == Some(Int(capacity))
  {
    if workers <= 0 || capacity <= 0 {
      return Failure("workers and queue capacity must be positive");
    }
    if !Editable(source) {
      return Failure("no authentication section");
    }
    var candidate := source;
    var custom := candidate.entries["custom_config"];
    var authentication := custom.entries["authentication"];
    authentication := Put(authentication, "password_hash_workers", Int(workers));
    authentication := Put(authentication, "password_hash_queue_capacity", Int(capacity));
    candidate := Put(candidate, "custom_config", Put(custom, "authentication", authentication));
    var changes := ChangedPaths(source, candidate, []);
    var unexpected := changes - ALLOWED;
    EditPassesIffNoNanOutside(source, workers, capacity, changes);
    if unexpected != {} {
      return Failure("auth experiment changed forbidden config paths");
    }
    EditedThere(source, workers, capacity);
    return Success(candidate);
  }
}
