/**
 * What the core learns from PHP reflection, as an explicit table of class
 * metadata, and the key order of PHP's string-keyed arrays, which decides the
 * order in which a class's dependency markers are discovered.
 */
module Types {

  /** What reflection reports about one loadable class. */
  datatype ClassInfo = ClassInfo(
    uses: seq<string>,     // class_uses: the traits the class itself uses, in declaration order
    parents: seq<string>,  // class_parents: its ancestors, nearest first
    methods: set<string>,  // the names method_exists accepts
    factoryAware: bool,    // instanceof FactoryAwareInterface
    isAbstract: bool,      // ReflectionClass::isAbstract
    instantiable: bool)    // ReflectionClass::isInstantiable

  /** Every class the runtime can load (class_exists), by its name. */
  type Runtime = map<string, ClassInfo>

  /** PHP looks a class name up without its leading backslash, if it has one. */
  function ClassKey(name: string): (key: string)
    ensures |name| > 0 && name[0] == '\\' ==> name == "\\" + key
    ensures !(|name| > 0 && name[0] == '\\') ==> key == name
  {
    if |name| > 0 && name[0] == '\\' then name[1..] else name
  }

  predicate Known(rt: Runtime, name: string)
  {
    ClassKey(name) in rt
  }

  function UsesOf(rt: Runtime, name: string): seq<string>
  {
    if Known(rt, name) then rt[ClassKey(name)].uses else []
  }

  function ParentsOf(rt: Runtime, name: string): seq<string>
  {
    if Known(rt, name) then rt[ClassKey(name)].parents else []
  }

  function MethodsOf(rt: Runtime, name: string): set<string>
  {
    if Known(rt, name) then rt[ClassKey(name)].methods else {}
  }

  predicate IsFactoryAware(rt: Runtime, name: string)
  {
    Known(rt, name) && rt[ClassKey(name)].factoryAware
  }

  predicate Distinct(s: seq<string>)
  {
    forall i, j :: 0 <= i < j < |s| ==> s[i] != s[j]
  }

  function Elems(s: seq<string>): set<string>
  {
    set x | x in s
  }

  /**
   * The keys of a string-keyed array whose keys are `acc` after the names `s`
   * are set in it one by one: a name already present keeps its place.
   */
  function Insert(acc: seq<string>, s: seq<string>): (r: seq<string>)
    ensures acc <= r
    ensures forall x :: x in r <==> x in acc || x in s
    ensures Distinct(acc) ==> Distinct(r)
    decreases |s|
  {
    if s == [] then acc
    else
      var r := Insert(acc, s[..|s| - 1]);
      var x := s[|s| - 1];
      assert s == s[..|s| - 1] + [x];
      if x in r then r else r + [x]
  }

  /** The keys of the array class_uses returns: the names, first occurrence kept. */
  function ArrayKeys(s: seq<string>): seq<string>
  {
    Insert([], s)
  }

  /** The keys of array_merge(front, back) when both arrays map each name to itself. */
  function ArrayMerge(front: seq<string>, back: seq<string>): seq<string>
  {
    Insert(ArrayKeys(front), back)
  }

  /** The names of `s` that are not in `excluded`, in their order. */
  function Without(s: seq<string>, excluded: set<string>): (r: seq<string>)
    ensures forall x :: x in r <==> x in s && x !in excluded
    ensures Distinct(s) ==> Distinct(r)
    decreases |s|
  {
    if s == [] then []
    else
      var x := s[|s| - 1];
      assert s == s[..|s| - 1] + [x];
      Without(s[..|s| - 1], excluded) + if x in excluded then [] else [x]
  }

  /** The traits used by any of `parents`. */
  function AncestorUses(rt: Runtime, parents: seq<string>): (r: set<string>)
    ensures forall x :: x in r <==> exists i :: 0 <= i < |parents| && x in UsesOf(rt, parents[i])
    decreases |parents|
  {
    if parents == [] then {}
    else
      var init := parents[..|parents| - 1];
      var r := AncestorUses(rt, init) + Elems(UsesOf(rt, parents[|parents| - 1]));
      assert forall i :: 0 <= i < |init| ==> init[i] == parents[i];
      r
  }

  /**
   * The loop over the ancestors: each ancestor's traits are merged in AHEAD of
   * the names gathered so far.
   */
  function CollectTraits(rt: Runtime, parents: seq<string>, acc: seq<string>): (r: seq<string>)
    ensures forall x :: x in r <==> x in acc || x in AncestorUses(rt, parents)
    ensures Distinct(acc) ==> Distinct(r)
    decreases |parents|
  {
    if parents == [] then acc
    else
      var uses := UsesOf(rt, parents[|parents| - 1]);
      assert forall x :: x in ArrayKeys(uses) <==> x in Elems(uses);
      ArrayMerge(uses, CollectTraits(rt, parents[..|parents| - 1], acc))
  }

  /** The trait names getClassSetterDependencies gathers for a class, before filtering. */
  function Traits(rt: Runtime, className: string): seq<string>
  {
    CollectTraits(rt, ParentsOf(rt, className), ArrayKeys(UsesOf(rt, className)))
  }

  lemma {:induction false} WithoutAppend(a: seq<string>, b: seq<string>, e: set<string>)
    ensures Without(a + b, e) == Without(a, e) + Without(b, e)
    decreases |b|
  {
    if b == [] {
      assert a + b == a;
      AppendEmpty(Without(a, e));
    } else {
      var init := b[..|b| - 1];
      var x := b[|b| - 1];
      var t := if x in e then [] else [x];
      assert (a + b)[..|a + b| - 1] == a + init;
      WithoutAppend(a, init, e);
      assert Without(a + b, e) == (Without(a, e) + Without(init, e)) + t;
      AppendAssociative(Without(a, e), Without(init, e), t);
    }
  }

  lemma {:induction false} WithoutWithout(s: seq<string>, a: set<string>, b: set<string>)
    ensures Without(Without(s, a), b) == Without(s, a + b)
    decreases |s|
  {
    if s != [] {
      var init := s[..|s| - 1];
      var x := s[|s| - 1];
      WithoutWithout(init, a, b);
      WithoutAppend(Without(init, a), if x in a then [] else [x], b);
    }
  }

  lemma {:induction false} WithoutNothing(s: seq<string>)
    ensures Without(s, {}) == s
    decreases |s|
  {
    if s != [] {
      var init := s[..|s| - 1];
      WithoutNothing(init);
      assert Without(s, {}) == Without(init, {}) + [s[|s| - 1]];
      assert init + [s[|s| - 1]] == s;
    }
  }

  /** Keys already distinct are kept as they are. */
  lemma {:induction false} ArrayKeysOfDistinct(s: seq<string>)
    requires Distinct(s)
    ensures ArrayKeys(s) == s
    decreases |s|
  {
    if s != [] {
      var init := s[..|s| - 1];
      ArrayKeysOfDistinct(init);
      assert s[|s| - 1] !in init;
    }
  }

  /** Setting names into an array appends exactly the new ones, in first-occurrence order. */
  lemma {:induction false} InsertSplit(acc: seq<string>, s: seq<string>)
    ensures Insert(acc, s) == acc + Without(ArrayKeys(s), Elems(acc))
    decreases |s|
  {
    if s == [] {
      assert Without([], Elems(acc)) == [];
      assert acc + [] == acc;
    } else {
      var init := s[..|s| - 1];
      var x := s[|s| - 1];
      InsertSplit(acc, init);
      var k := ArrayKeys(init);
      var r := Insert(acc, init);
      var w := Without(k, Elems(acc));
      assert r == acc + w;
      if x in k {
        assert x in r;
        assert ArrayKeys(s) == k;
      } else {
        assert ArrayKeys(s) == k + [x];
        WithoutAppend(k, [x], Elems(acc));
        WithoutOne(x, Elems(acc));
        if x in acc {
          assert Insert(acc, s) == r;
          assert Without(k + [x], Elems(acc)) == w + [];
          assert w + [] == w;
        } else {
          assert x !in r;
          assert Insert(acc, s) == r + [x];
          assert Without(k + [x], Elems(acc)) == w + [x];
          AppendAssociative(acc, w, [x]);
        }
      }
    }
  }

  lemma AppendEmpty(a: seq<string>)
    ensures a + [] == a
  {
  }

  lemma AppendAssociative(a: seq<string>, b: seq<string>, c: seq<string>)
    ensures (a + b) + c == a + (b + c)
  {
  }

  lemma WithoutOne(x: string, excluded: set<string>)
    ensures Without([x], excluded) == if x in excluded then [] else [x]
  {
    assert [x][..0] == [];
  }

  /**
   * The gathered traits are the ancestors' traits merged on their own,
   * followed by the class's own traits that no ancestor uses, in their order.
   */
  lemma {:induction false} CollectTraitsSplit(rt: Runtime, parents: seq<string>, acc: seq<string>)
    requires Distinct(acc)
    ensures CollectTraits(rt, parents, acc)
         == CollectTraits(rt, parents, []) + Without(acc, AncestorUses(rt, parents))
    decreases |parents|
  {
    if parents == [] {
      WithoutNothing(acc);
    } else {
      var init := parents[..|parents| - 1];
      var uses := UsesOf(rt, parents[|parents| - 1]);
      var front := ArrayKeys(uses);
      var c := CollectTraits(rt, init, acc);
      var c0 := CollectTraits(rt, init, []);
      var before := AncestorUses(rt, init);
      CollectTraitsSplit(rt, init, acc);
      MergeAhead(front, c0, Without(acc, before), acc, before);
      assert Elems(front) == Elems(uses);
      assert AncestorUses(rt, parents) == before + Elems(uses);
    }
  }

  /** One ancestor step of CollectTraitsSplit, free of the class table. */
  lemma MergeAhead(front: seq<string>, c0: seq<string>, rest: seq<string>, acc: seq<string>, before: set<string>)
    requires Distinct(c0) && Distinct(c0 + rest)
    requires rest == Without(acc, before)
    ensures Insert(front, c0 + rest) == Insert(front, c0) + Without(acc, before + Elems(front))
  {
    var ef := Elems(front);
    MergeDistinct(front, c0 + rest);
    WithoutAppend(c0, rest, ef);
    WithoutWithout(acc, before, ef);
    MergeDistinct(front, c0);
    AppendAssociative(front, Without(c0, ef), Without(acc, before + ef));
  }

  /** Merging distinct names after a front keeps the front and then the new names. */
  lemma MergeDistinct(front: seq<string>, c: seq<string>)
    requires Distinct(c)
    ensures Insert(front, c) == front + Without(c, Elems(front))
  {
    InsertSplit(front, c);
    ArrayKeysOfDistinct(c);
  }

  /**
   * A class's traits: every ancestor's traits come first, then the traits
   * only the class itself uses; no name appears twice.
   */
  lemma TraitsOrder(rt: Runtime, className: string)
    ensures Traits(rt, className)
         == CollectTraits(rt, ParentsOf(rt, className), [])
          + Without(ArrayKeys(UsesOf(rt, className)), AncestorUses(rt, ParentsOf(rt, className)))
    ensures Distinct(Traits(rt, className))
  {
    CollectTraitsSplit(rt, ParentsOf(rt, className), ArrayKeys(UsesOf(rt, className)));
  }
}
