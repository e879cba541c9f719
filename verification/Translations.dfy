/** Translation files: merging a locale into the reference's shape, extracting
    dotted keys, and looking a key up at run time. */
module Translations {
  import opened Prelude
  import Rooms

  /** Parsed JSON. A scalar is a number, a boolean or null. */
  datatype Json = Text(s: string) | Scalar(truthy: bool, repr: string) | List(items: seq<Json>) | Obj(fields: Fields)
  datatype Fields = Nil | Cons(key: string, value: Json, rest: Fields)

  function Lookup(f: Fields, key: string): Option<Json> {
    match f
    case Nil => None
    case Cons(k, v, rest) => if k == key then Some(v) else Lookup(rest, key)
  }

  function KeySet(f: Fields): set<string> {
    match f
    case Nil => {}
    case Cons(k, _, rest) => {k} + KeySet(rest)
  }

  function Decimal(n: nat): string
  {
    if n < 10 then [('0' as int + n) as char] else Decimal(n / 10) + [('0' as int + n % 10) as char]
  }

  /** The element a decimal index names, as for strings and arrays. */
  function AtIndex<T>(s: seq<T>, key: string, i: nat): Option<T>
    requires i <= |s|
    decreases |s| - i
  {
    if i == |s| then None else if Decimal(i) == key then Some(s[i]) else AtIndex(s, key, i + 1)
  }

  predicate Truthy(v: Json) {
    match v
    case Text(s) => s != ""
    case Scalar(truthy, _) => truthy
    case _ => true
  }

  /** A truthy value's own property: strings and arrays have theirs too. */
  function Own(target: Option<Json>, key: string): Option<Json> {
    if target.None? || !Truthy(target.value) then None
    else match target.value
      case Obj(f) => Lookup(f, key)
      case Text(s) =>
        if key == "length" then Some(Scalar(|s| != 0, Decimal(|s|)))
        else (var c := AtIndex(s, key, 0); if c.Some? then Some(Text([c.value])) else None)
      case List(items) =>
        if key == "length" then Some(Scalar(|items| != 0, Decimal(|items|))) else AtIndex(items, key, 0)
      case Scalar(_, _) => None
  }

  lemma {:induction false} DecimalValue(n: nat)
    ensures Rooms.DigitsValue(Decimal(n)) == n
  {
    if n >= 10 {
      DecimalValue(n / 10);
      var d := Decimal(n / 10);
      var s := d + [('0' as int + n % 10) as char];
      assert s[..|s| - 1] == d;
    } else {
      assert Decimal(n)[..0] == "";
    }
  }

  lemma {:induction false} AtIndexFinds<T>(s: seq<T>, i: nat, from: nat)
    requires from <= i < |s|
    ensures AtIndex(s, Decimal(i), from) == Some(s[i])
    decreases i - from
  {
    DecimalValue(i);
    DecimalValue(from);
    if from < i { AtIndexFinds(s, i, from + 1); }
  }

  /** A nonempty text has its characters and its length as properties, a list its
      elements and its length; an empty text, a falsy scalar or nothing has none. */
  lemma {:induction false} OwnProperties(s: string, items: seq<Json>, i: nat, key: string)
    ensures i < |s| ==> Own(Some(Text(s)), Decimal(i)) == Some(Text([s[i]]))
    ensures s != "" ==> Own(Some(Text(s)), "length") == Some(Scalar(true, Decimal(|s|)))
    ensures i < |items| ==> Own(Some(List(items)), Decimal(i)) == Some(items[i])
    ensures Own(Some(List(items)), "length") == Some(Scalar(items != [], Decimal(|items|)))
    ensures Own(Some(Text("")), key) == Own(None, key) == Own(Some(Scalar(false, s)), key) == None
  {
    DecimalDigit(i);
    if i < |s| { AtIndexFinds(s, i, 0); }
    if i < |items| { AtIndexFinds(items, i, 0); }
  }

  lemma {:induction false} DecimalDigit(n: nat)
    ensures Decimal(n) != "" && Rooms.IsDigit(Decimal(n)[0])
    ensures Decimal(n) != "length"
  {
    if n >= 10 { DecimalDigit(n / 10); }
  }

  // ----- mergeWithReferenceShape -----

  function Merge(ref: Json, target: Option<Json>): Json {
    match ref
    case Obj(f) => Obj(MergeFields(f, target))
    case _ => if target.Some? then target.value else ref
  }

  function MergeFields(f: Fields, target: Option<Json>): Fields {
    match f
    case Nil => Nil
    case Cons(k, v, rest) => Cons(k, Merge(v, Own(target, k)), MergeFields(rest, target))
  }

  // ----- extractKeys and getByPath -----

  function Full(prefix: string, key: string): string { if prefix != "" then prefix + "." + key else key }

  function ExtractKeys(f: Fields, prefix: string): seq<string> {
    match f
    case Nil => []
    case Cons(k, v, rest) =>
      (if v.Obj? then ExtractKeys(v.fields, Full(prefix, k)) else [Full(prefix, k)]) + ExtractKeys(rest, prefix)
  }

  function Walk(acc: Option<Json>, path: seq<string>): Option<Json>
    decreases |path|
  {
    if path == [] then acc else Walk(Own(acc, path[0]), path[1..])
  }

  function GetByPath(o: Json, path: string): Option<Json> { Walk(Some(o), Rooms.Split(path, '.')) }

  // ----- Well-formed files -----

  ghost predicate DistinctKeys(f: Fields) {
    match f
    case Nil => true
    case Cons(k, v, rest) => k !in KeySet(rest) && (v.Obj? ==> DistinctKeys(v.fields)) && DistinctKeys(rest)
  }

  /** Keys are nonempty and hold no dot. */
  ghost predicate CleanKeys(f: Fields) {
    match f
    case Nil => true
    case Cons(k, v, rest) => k != "" && '.' !in k && (v.Obj? ==> CleanKeys(v.fields)) && CleanKeys(rest)
  }

  /** Nowhere does the target hold an object where the reference has a leaf. */
  ghost predicate Fits(ref: Json, target: Option<Json>) {
    match ref
    case Obj(f) => FieldsFit(f, target)
    case _ => target.None? || !target.value.Obj?
  }

  ghost predicate FieldsFit(f: Fields, target: Option<Json>) {
    match f
    case Nil => true
    case Cons(k, v, rest) => Fits(v, Own(target, k)) && FieldsFit(rest, target)
  }

  // ----- Paths -----

  function Prepend(k: string, paths: seq<seq<string>>): seq<seq<string>> {
    if paths == [] then [] else [[k] + paths[0]] + Prepend(k, paths[1..])
  }

  /** The leaves of a file, each as the keys that lead to it. */
  function Paths(f: Fields): seq<seq<string>> {
    match f
    case Nil => []
    case Cons(k, v, rest) => (if v.Obj? then Prepend(k, Paths(v.fields)) else [[k]]) + Paths(rest)
  }

  function Join(path: seq<string>): string
    requires path != []
  {
    if |path| == 1 then path[0] else path[0] + "." + Join(path[1..])
  }

  ghost predicate CleanPath(path: seq<string>) {
    path != [] && forall i :: 0 <= i < |path| ==> path[i] != "" && '.' !in path[i]
  }

  lemma {:induction false} PrependAre(k: string, paths: seq<seq<string>>)
    ensures forall p :: p in Prepend(k, paths) <==> p != [] && p[0] == k && p[1..] in paths
  {
    if paths != [] {
      PrependAre(k, paths[1..]);
      forall p ensures p in Prepend(k, paths) <==> p != [] && p[0] == k && p[1..] in paths {
        if p != [] && p[0] == k && p[1..] == paths[0] { assert p == [k] + paths[0]; }
        assert paths == [paths[0]] + paths[1..];
        assert ([k] + paths[0])[1..] == paths[0];
      }
    }
  }

  lemma {:induction false} FirstKey(f: Fields)
    ensures forall p :: p in Paths(f) ==> p != [] && p[0] in KeySet(f)
  {
    if f.Cons? {
      FirstKey(f.rest);
      if f.value.Obj? { PrependAre(f.key, Paths(f.value.fields)); }
    }
  }

  lemma {:induction false} LookupRest(f: Fields, key: string)
    ensures Lookup(f, key).Some? <==> key in KeySet(f)
  {
    if f.Cons? { LookupRest(f.rest, key); }
  }

  /** The values of the leaves, in the order their keys are extracted. */
  function LeafValues(f: Fields): seq<Json> {
    match f
    case Nil => []
    case Cons(_, v, rest) => (if v.Obj? then LeafValues(v.fields) else [v]) + LeafValues(rest)
  }

  lemma {:induction false} PrependAt(k: string, paths: seq<seq<string>>)
    ensures |Prepend(k, paths)| == |paths|
    ensures forall i :: 0 <= i < |paths| ==> Prepend(k, paths)[i] == [k] + paths[i]
  {
    if paths != [] { PrependAt(k, paths[1..]); }
  }

  lemma {:induction false} PathPerLeaf(f: Fields)
    ensures |Paths(f)| == |LeafValues(f)|
  {
    if f.Cons? {
      PathPerLeaf(f.rest);
      if f.value.Obj? {
        PathPerLeaf(f.value.fields);
        PrependAt(f.key, Paths(f.value.fields));
      }
    }
  }

  /** Following a leaf's own path arrives at that leaf. */
  lemma {:induction false} PathLeadsToLeaf(f: Fields, i: nat)
    requires DistinctKeys(f) && i < |Paths(f)|
    ensures i < |LeafValues(f)| && Walk(Some(Obj(f)), Paths(f)[i]) == Some(LeafValues(f)[i])
    decreases f, 1
  {
    PathPerLeaf(f);
    if f.value.Obj? && i < |Paths(f.value.fields)| {
      PathPerLeaf(f.value.fields);
      PrependAt(f.key, Paths(f.value.fields));
      PathLeadsToLeaf(f.value.fields, i);
      assert ([f.key] + Paths(f.value.fields)[i])[1..] == Paths(f.value.fields)[i];
    } else if !f.value.Obj? && i == 0 {
      assert Paths(f)[0] == [f.key];
    } else {
      LaterLeaf(f, i);
    }
  }

  /** A leaf of the other fields. */
  lemma {:induction false} LaterLeaf(f: Fields, i: nat)
    requires f.Cons? && DistinctKeys(f) && i < |Paths(f)|
    requires i >= if f.value.Obj? then |Paths(f.value.fields)| else 1
    ensures i < |LeafValues(f)| && Walk(Some(Obj(f)), Paths(f)[i]) == Some(LeafValues(f)[i])
    decreases f, 0
  {
    var skipped := if f.value.Obj? then |Paths(f.value.fields)| else 1;
    if f.value.Obj? {
      PathPerLeaf(f.value.fields);
      PrependAt(f.key, Paths(f.value.fields));
    }
    PathLeadsToLeaf(f.rest, i - skipped);
    var path := Paths(f.rest)[i - skipped];
    assert Paths(f)[i] == path && LeafValues(f)[i] == LeafValues(f.rest)[i - skipped];
    FirstKey(f.rest);
    assert path in Paths(f.rest);
    assert Own(Some(Obj(f)), path[0]) == Own(Some(Obj(f.rest)), path[0]);
  }

  lemma {:induction false} PathsAreClean(f: Fields)
    requires CleanKeys(f)
    ensures forall p :: p in Paths(f) ==> CleanPath(p)
  {
    if f.Cons? {
      PathsAreClean(f.rest);
      if f.value.Obj? {
        PathsAreClean(f.value.fields);
        PrependAre(f.key, Paths(f.value.fields));
        forall p | p in Prepend(f.key, Paths(f.value.fields)) ensures CleanPath(p) {
          assert CleanPath(p[1..]);
          assert forall i :: 1 <= i < |p| ==> p[i] == p[1..][i - 1];
        }
      }
    }
  }

  lemma {:induction false} SplitJoin(path: seq<string>)
    requires CleanPath(path)
    ensures Rooms.Split(Join(path), '.') == path
  {
    if |path| == 1 {
      Rooms.SplitWhole(path[0], '.');
    } else {
      SplitJoin(path[1..]);
      Rooms.SplitAtFirst(path[0], Join(path[1..]), '.');
      assert path == [path[0]] + path[1..];
    }
  }

  // ----- The extracted strings are the joined paths -----

  function JoinAll(prefix: string, paths: seq<seq<string>>): seq<string> {
    seq(|paths|, i requires 0 <= i < |paths| =>
      if paths[i] == [] then prefix else Full(prefix, Join(paths[i])))
  }

  lemma {:induction false} JoinAllConcat(prefix: string, a: seq<seq<string>>, b: seq<seq<string>>)
    ensures JoinAll(prefix, a + b) == JoinAll(prefix, a) + JoinAll(prefix, b)
  {
  }

  lemma {:induction false} JoinCons(prefix: string, k: string, path: seq<string>)
    requires k != "" && path != []
    ensures Full(prefix, Join([k] + path)) == Full(Full(prefix, k), Join(path))
  {
    assert ([k] + path)[1..] == path;
    assert Full(prefix, k + "." + Join(path)) == Full(Full(prefix, k), Join(path));
  }

  lemma {:induction false} JoinAllPrepend(prefix: string, k: string, paths: seq<seq<string>>)
    requires k != "" && forall p :: p in paths ==> p != []
    ensures JoinAll(prefix, Prepend(k, paths)) == JoinAll(Full(prefix, k), paths)
  {
    PrependAt(k, paths);
    forall i | 0 <= i < |paths| ensures JoinAll(prefix, Prepend(k, paths))[i] == JoinAll(Full(prefix, k), paths)[i] {
      assert paths[i] in paths;
      JoinCons(prefix, k, paths[i]);
    }
  }

  lemma {:induction false} ExtractedAreJoined(f: Fields, prefix: string)
    requires CleanKeys(f)
    ensures ExtractKeys(f, prefix) == JoinAll(prefix, Paths(f))
  {
    if f.Cons? {
      var k, v := f.key, f.value;
      ExtractedAreJoined(f.rest, prefix);
      if v.Obj? {
        ExtractedAreJoined(v.fields, Full(prefix, k));
        FirstKey(v.fields);
        JoinAllPrepend(prefix, k, Paths(v.fields));
        JoinAllConcat(prefix, Prepend(k, Paths(v.fields)), Paths(f.rest));
      } else {
        JoinAllConcat(prefix, [[k]], Paths(f.rest));
        assert JoinAll(prefix, [[k]]) == [Full(prefix, k)] by { assert [[k]][1..] == []; }
      }
    }
  }

  /** Every extracted dotted key resolves, by path lookup, to its own leaf: the
      i-th key to the value of the i-th leaf. */
  lemma {:induction false} ExtractedKeyResolves(f: Fields, i: nat)
    requires DistinctKeys(f) && CleanKeys(f) && i < |ExtractKeys(f, "")|
    ensures |ExtractKeys(f, "")| == |LeafValues(f)|
    ensures GetByPath(Obj(f), ExtractKeys(f, "")[i]) == Some(LeafValues(f)[i])
  {
    ExtractedAreJoined(f, "");
    PathsAreClean(f);
    PathPerLeaf(f);
    assert forall p :: p in Paths(f) ==> CleanPath(p);
    assert Paths(f)[i] in Paths(f);
    SplitJoin(Paths(f)[i]);
    PathLeadsToLeaf(f, i);
  }

  // ----- Merging -----

  lemma {:induction false} MergeKeepsKeys(f: Fields, target: Option<Json>)
    ensures KeySet(MergeFields(f, target)) == KeySet(f)
  {
    if f.Cons? { MergeKeepsKeys(f.rest, target); }
  }

  lemma {:induction false} LookupMerged(f: Fields, target: Option<Json>, key: string)
    requires DistinctKeys(f)
    ensures Lookup(MergeFields(f, target), key) ==
      match Lookup(f, key) case None => None case Some(v) => Some(Merge(v, Own(target, key)))
  {
    if f.Cons? { LookupMerged(f.rest, target, key); }
  }

  /** A translation survives the merge: at every leaf of the reference the merged
      file has what the locale had there, and the reference's own value only
      where the locale had nothing. */
  lemma {:induction false} TranslationsSurvive(f: Fields, target: Option<Json>, i: nat)
    requires DistinctKeys(f) && i < |Paths(f)|
    ensures i < |LeafValues(f)|
    ensures Walk(Some(Obj(MergeFields(f, target))), Paths(f)[i]) ==
      if Walk(target, Paths(f)[i]).Some? then Walk(target, Paths(f)[i]) else Some(LeafValues(f)[i])
    decreases f, 1
  {
    PathPerLeaf(f);
    if f.value.Obj? && i < |Paths(f.value.fields)| {
      PathPerLeaf(f.value.fields);
      PrependAt(f.key, Paths(f.value.fields));
      TranslationsSurvive(f.value.fields, Own(target, f.key), i);
      assert ([f.key] + Paths(f.value.fields)[i])[1..] == Paths(f.value.fields)[i];
    } else if !f.value.Obj? && i == 0 {
      assert Paths(f)[0] == [f.key];
    } else {
      LaterSurvives(f, target, i);
    }
  }

  lemma {:induction false} LaterSurvives(f: Fields, target: Option<Json>, i: nat)
    requires f.Cons? && DistinctKeys(f) && i < |Paths(f)|
    requires i >= if f.value.Obj? then |Paths(f.value.fields)| else 1
    ensures i < |LeafValues(f)|
    ensures Walk(Some(Obj(MergeFields(f, target))), Paths(f)[i]) ==
      if Walk(target, Paths(f)[i]).Some? then Walk(target, Paths(f)[i]) else Some(LeafValues(f)[i])
    decreases f, 0
  {
    var skipped := if f.value.Obj? then |Paths(f.value.fields)| else 1;
    if f.value.Obj? {
      PathPerLeaf(f.value.fields);
      PrependAt(f.key, Paths(f.value.fields));
    }
    TranslationsSurvive(f.rest, target, i - skipped);
    var path := Paths(f.rest)[i - skipped];
    assert Paths(f)[i] == path && LeafValues(f)[i] == LeafValues(f.rest)[i - skipped];
    FirstKey(f.rest);
    assert path in Paths(f.rest);
    var merged := MergeFields(f, target);
    assert Own(Some(Obj(merged)), path[0]) == Own(Some(Obj(merged.rest)), path[0]);
  }

  /** The same for the dotted keys that are looked up at run time: after a sync
      a key gives the locale's text if the locale had one, otherwise the
      reference's. */
  lemma {:induction false} SyncedKeyResolves(f: Fields, locale: Json, i: nat)
    requires DistinctKeys(f) && CleanKeys(f) && i < |ExtractKeys(f, "")|
    ensures var key := ExtractKeys(f, "")[i]; var merged := Obj(MergeFields(f, Some(locale)));
      GetByPath(merged, key) ==
        if GetByPath(locale, key).Some? then GetByPath(locale, key) else GetByPath(Obj(f), key)
  {
    ExtractedAreJoined(f, "");
    PathsAreClean(f);
    PathPerLeaf(f);
    assert Paths(f)[i] in Paths(f);
    SplitJoin(Paths(f)[i]);
    PathLeadsToLeaf(f, i);
    TranslationsSurvive(f, Some(locale), i);
  }

  /** Merging again changes nothing. */
  lemma {:induction false} MergeIdempotent(ref: Json, target: Option<Json>)
    requires ref.Obj? ==> DistinctKeys(ref.fields)
    ensures Merge(ref, Some(Merge(ref, target))) == Merge(ref, target)
    decreases ref, 1
  {
    if ref.Obj? {
      MergeFieldsIdempotent(ref.fields, ref.fields, target);
    }
  }

  lemma {:induction false} MergeFieldsIdempotent(all: Fields, f: Fields, target: Option<Json>)
    requires DistinctKeys(all) && DistinctKeys(f)
    requires forall k :: Lookup(f, k).Some? ==> Lookup(all, k) == Lookup(f, k)
    ensures MergeFields(f, Some(Obj(MergeFields(all, target)))) == MergeFields(f, target)
    decreases f, 0
  {
    if f.Cons? {
      LookupMerged(all, target, f.key);
      assert Lookup(f, f.key) == Some(f.value);
      MergeIdempotent(f.value, Own(target, f.key));
      forall k | Lookup(f.rest, k).Some? ensures Lookup(all, k) == Lookup(f.rest, k) {
        LookupRest(f.rest, k);
        assert Lookup(f, k) == Lookup(f.rest, k);
      }
      MergeFieldsIdempotent(all, f.rest, target);
    }
  }

  lemma {:induction false} FittingMergeKeepsKeys(f: Fields, target: Option<Json>, prefix: string)
    requires FieldsFit(f, target)
    ensures ExtractKeys(MergeFields(f, target), prefix) == ExtractKeys(f, prefix)
  {
    if f.Cons? {
      if f.value.Obj? { FittingMergeKeepsKeys(f.value.fields, Own(target, f.key), Full(prefix, f.key)); }
      FittingMergeKeepsKeys(f.rest, target, prefix);
    }
  }

  /** Keys that belong to one field: the field's own dotted name, or below it. */
  ghost predicate InFamily(s: string, base: string) { s == base || base + "." <= s }

  lemma {:induction false} FamiliesDisjoint(s: string, prefix: string, k: string, k': string)
    requires '.' !in k && '.' !in k' && k != "" && k' != "" && k != k'
    ensures !(InFamily(s, Full(prefix, k)) && InFamily(s, Full(prefix, k')))
  {
    if InFamily(s, Full(prefix, k)) && InFamily(s, Full(prefix, k')) {
      if |k| <= |k'| { NoSharedKey(s, prefix, k, k'); } else { NoSharedKey(s, prefix, k', k); }
    }
  }

  lemma {:induction false} NoSharedKey(s: string, prefix: string, short: string, long: string)
    requires '.' !in short && '.' !in long && short != "" && |short| <= |long|
    requires InFamily(s, Full(prefix, short)) && InFamily(s, Full(prefix, long))
    ensures short == long
  {
    var a, b := Full(prefix, short), Full(prefix, long);
    var start := |a| - |short|;
    assert a <= s && b <= s;
    assert forall i :: 0 <= i < |short| ==> short[i] == a[start + i] == s[start + i] == b[start + i] == long[i];
    assert forall i :: 0 <= i < |long| ==> long[i] in long;
    assert |a| < |s| ==> s[|a|] == '.';
    assert s[|a|..|b|] == b[|a|..] == long[|short|..];
    assert |short| == |long| ==> short == long;
  }

  lemma {:induction false} Families(f: Fields, prefix: string)
    requires prefix != "" || "" !in KeySet(f)
    ensures forall s :: s in ExtractKeys(f, prefix) ==> exists k :: k in KeySet(f) && InFamily(s, Full(prefix, k))
    ensures prefix != "" ==> forall s :: s in ExtractKeys(f, prefix) ==> prefix + "." <= s
  {
    if f.Cons? {
      Families(f.rest, prefix);
      if f.value.Obj? { Families(f.value.fields, Full(prefix, f.key)); }
    }
  }

  lemma {:induction false} CleanKeySet(f: Fields)
    requires CleanKeys(f)
    ensures forall k :: k in KeySet(f) ==> k != "" && '.' !in k
  {
    if f.Cons? { CleanKeySet(f.rest); }
  }

  /** Where the target does not fit, a key of the reference disappears. */
  lemma {:induction false} MisfitKeyGone(f: Fields, target: Option<Json>, prefix: string) returns (key: string)
    requires DistinctKeys(f) && CleanKeys(f) && !FieldsFit(f, target)
    ensures key in ExtractKeys(f, prefix) && key !in ExtractKeys(MergeFields(f, target), prefix)
  {
    var k, v, own := f.key, f.value, Own(target, f.key);
    var base, rest := Full(prefix, k), MergeFields(f.rest, target);
    CleanKeySet(f);
    CleanKeySet(f.rest);
    MergeKeepsKeys(f.rest, target);
    if !Fits(v, own) {
      if v.Obj? {
        key := MisfitKeyGone(v.fields, own, base);
        Families(v.fields, base);
      } else {
        key := base;
        Families(own.value.fields, base);
      }
      assert InFamily(key, base);
      if key in ExtractKeys(rest, prefix) {
        Families(rest, prefix);
        var k' :| k' in KeySet(rest) && InFamily(key, Full(prefix, k'));
        FamiliesDisjoint(key, prefix, k, k');
        assert false;
      }
    } else {
      key := MisfitKeyGone(f.rest, target, prefix);
      OtherFamily(f, target, prefix, key);
    }
  }

  /** A key of the other fields is not among the first field's. */
  lemma {:induction false} OtherFamily(f: Fields, target: Option<Json>, prefix: string, key: string)
    requires f.Cons? && DistinctKeys(f) && CleanKeys(f) && key in ExtractKeys(f.rest, prefix)
    ensures var m := Merge(f.value, Own(target, f.key));
      key !in (if m.Obj? then ExtractKeys(m.fields, Full(prefix, f.key)) else [Full(prefix, f.key)])
  {
    var m := Merge(f.value, Own(target, f.key));
    CleanKeySet(f);
    CleanKeySet(f.rest);
    Families(f.rest, prefix);
    var k' :| k' in KeySet(f.rest) && InFamily(key, Full(prefix, k'));
    if m.Obj? { Families(m.fields, Full(prefix, f.key)); }
    FamiliesDisjoint(key, prefix, f.key, k');
  }

  /** After a merge a locale has exactly the reference's keys if and only if it
      held no object where the reference has a leaf. */
  lemma {:induction false} MergedKeysIffFits(f: Fields, target: Option<Json>)
    requires DistinctKeys(f) && CleanKeys(f)
    ensures (forall s :: s in ExtractKeys(MergeFields(f, target), "") <==> s in ExtractKeys(f, "")) <==>
      FieldsFit(f, target)
  {
    if FieldsFit(f, target) {
      FittingMergeKeepsKeys(f, target, "");
    } else {
      var key := MisfitKeyGone(f, target, "");
    }
  }
}
