/** `PersistableEntityScanner`: finds the domain types of a package. Every class annotated
    `@Persistent` or implementing `Persistable`, and the domain and return types of every
    repository interface, is the root of a depth-first walk over field types. A scanner
    remembers the classes it has seen, marks a class before visiting its fields, and never
    collects a class twice. Reflection is an input: a `Classpath` maps each class to the
    declared types of its fields. */
module Scanner {
  import opened Wrappers
  import opened Text
  import opened JavaTypes
  import opened Registry

  /** For each class, the declared types of the fields `ReflectionUtils.doWithFields` visits,
      in visiting order (inherited fields included). A class the map omits has no fields. */
  type Classpath = map<JClass, seq<RType>>

  function FieldsOf(cp: Classpath, c: JClass): seq<RType> {
    if c in cp then cp[c] else []
  }

  /** The scanner's `seen` set together with the classes a call has collected so far. */
  datatype Walk = Walk(seen: set<JClass>, types: seq<JClass>)

  function Elems(s: seq<JClass>): set<JClass> {
    set x | x in s
  }

  /** The classes `collectTypes(Class)` refuses without marking them seen: a name starting
      with `java`, a primitive or wrapper, or an interface. */
  predicate Excluded(c: JClass) {
    StartsWith(Name(c), "java") || IsPrimitiveOrWrapper(c) || IsInterface(c)
  }

  /** The classes one field hands on to the walk, by its `TypeInformation`: a collection its
      component, a map its key and value, anything else its actual type. */
  function Contributions(t: RType): (r: seq<JClass>)
    ensures 1 <= |r| <= 2
  {
    if IsCollectionLikeTI(t) then [TIType(ComponentTI(t))]
    else if IsMapTI(t) then [TIType(ComponentTI(t)), TIType(MapValueTI(t))]
    else [TIType(ActualTI(t))]
  }

  /** Every class the fields of `c` hand on has been seen, unless the walk refuses it. */
  predicate Covered(cp: Classpath, c: JClass, seen: set<JClass>) {
    forall t :: t in FieldsOf(cp, c) ==> forall x :: x in Contributions(t) ==> x in seen || Excluded(x)
  }

  /** The collected classes are distinct and all marked seen. */
  predicate WalkInv(w: Walk) {
    Elems(w.types) <= w.seen && NoDuplicates(w.types)
  }

  /** `r` continues `w`: the seen set only grows, the collected classes only get appended to,
      and what was newly seen is exactly what was newly collected. Each new class passes the
      filters, was unseen before, and has had all its fields walked. */
  predicate Extends(cp: Classpath, w: Walk, r: Walk) {
    && w.seen <= r.seen
    && |w.types| <= |r.types| && r.types[..|w.types|] == w.types
    && (forall x :: x in r.seen ==> x in w.seen || x in r.types[|w.types|..])
    && (forall i :: |w.types| <= i < |r.types| ==>
          r.types[i] !in w.seen && !Excluded(r.types[i]) && Covered(cp, r.types[i], r.seen))
  }

  /** How many classes of the classpath are still unseen. */
  function Unseen(cp: Classpath, seen: set<JClass>): nat {
    |cp.Keys - seen|
  }

  // ---------------------------------------------------------------------------------
  // The walk

  /** `collectTypes(Class)` from scanner state `seen`: nothing for a seen or excluded class;
      otherwise the class is marked seen and collected first, then every field contributes
      in turn. */
  function CollectTypes(cp: Classpath, c: JClass, seen: set<JClass>): (r: Walk)
    ensures WalkInv(r) && Extends(cp, Walk(seen, []), r)
    ensures r.types == [] <==> c in seen || Excluded(c)
    ensures r.types == [] ==> r.seen == seen
    ensures r.types != [] ==> r.types[0] == c
    decreases Unseen(cp, seen), 0, 0
  {
    if c in seen || Excluded(c) then Walk(seen, [])
    else
      var start := Walk(seen + {c}, [c]);
      if c in cp then
        SeenDrops(cp, seen, c);
        var r := CollectFields(cp, cp[c], start);
        Rooted(cp, c, seen, r);
        r
      else
        start
  }

  /** `doWithFields`: the fields of the class in order, each contributing to the walk. */
  function CollectFields(cp: Classpath, fs: seq<RType>, w: Walk): (r: Walk)
    requires WalkInv(w)
    ensures WalkInv(r) && Extends(cp, w, r)
    ensures forall t :: t in fs ==> forall x :: x in Contributions(t) ==> x in r.seen || Excluded(x)
    decreases Unseen(cp, w.seen), 4, |fs|
  {
    if |fs| == 0 then w
    else
      var w1 := Contribute(cp, fs[0], w);
      SeenShrinks(cp, w.seen, w1.seen);
      var r := CollectFields(cp, fs[1..], w1);
      Chain(cp, w, w1, r);
      assert forall t :: t in fs ==> t == fs[0] || t in fs[1..];
      r
  }

  /** One field: a collection's component type and a map's key type are visited unless
      already seen; a map's value type is always visited (its guard compares a
      `TypeInformation` with classes and never holds); anything else visits its actual type
      unless already seen. */
  function Contribute(cp: Classpath, t: RType, w: Walk): (r: Walk)
    requires WalkInv(w)
    ensures WalkInv(r) && Extends(cp, w, r)
    ensures forall x :: x in Contributions(t) ==> x in r.seen || Excluded(x)
    decreases Unseen(cp, w.seen), 3, 0
  {
    if IsCollectionLikeTI(t) then
      Guarded(cp, TIType(ComponentTI(t)), w)
    else if IsMapTI(t) then
      var w1 := Guarded(cp, TIType(ComponentTI(t)), w);
      SeenShrinks(cp, w.seen, w1.seen);
      var r := Visit(cp, TIType(MapValueTI(t)), w1);
      Chain(cp, w, w1, r);
      r
    else
      Guarded(cp, TIType(ActualTI(t)), w)
  }

  /** `if (!seen.contains(x)) types.addAll(collectTypes(x))`. */
  function Guarded(cp: Classpath, x: JClass, w: Walk): (r: Walk)
    requires WalkInv(w)
    ensures WalkInv(r) && Extends(cp, w, r)
    ensures x in r.seen || Excluded(x)
    decreases Unseen(cp, w.seen), 2, 0
  {
    if x in w.seen then w else Visit(cp, x, w)
  }

  /** `types.addAll(collectTypes(x))`. */
  function Visit(cp: Classpath, x: JClass, w: Walk): (r: Walk)
    requires WalkInv(w)
    ensures WalkInv(r) && Extends(cp, w, r)
    ensures x in r.seen || Excluded(x)
    decreases Unseen(cp, w.seen), 1, 0
  {
    var sub := CollectTypes(cp, x, w.seen);
    Appended(cp, w, sub);
    Walk(sub.seen, AddAll(w.types, sub.types))
  }

  // ---------------------------------------------------------------------------------
  // Facts the walk relies on

  lemma SeenShrinks(cp: Classpath, s1: set<JClass>, s2: set<JClass>)
    requires s1 <= s2
    ensures Unseen(cp, s2) <= Unseen(cp, s1)
  {
    SubsetCard(cp.Keys - s2, cp.Keys - s1);
  }

  lemma SeenDrops(cp: Classpath, seen: set<JClass>, c: JClass)
    requires c in cp && c !in seen
    ensures Unseen(cp, seen + {c}) < Unseen(cp, seen)
  {
    assert c in cp.Keys - seen;
    SubsetCard(cp.Keys - (seen + {c}), cp.Keys - seen - {c});
  }

  lemma CoveredGrows(cp: Classpath, c: JClass, s1: set<JClass>, s2: set<JClass>)
    requires Covered(cp, c, s1) && s1 <= s2
    ensures Covered(cp, c, s2)
  {
  }

  /** The tail of a duplicate-free sequence disjoint from `s` is duplicate-free and disjoint
      from `s` with the head added. */
  lemma DisjointTail<T>(s: seq<T>, xs: seq<T>)
    requires |xs| > 0 && NoDuplicates(xs) && forall x :: x in xs ==> x !in s
    ensures xs[0] !in s && NoDuplicates(xs[1..])
    ensures forall y :: y in xs[1..] ==> y !in s + [xs[0]]
  {
    var rest := xs[1..];
    assert xs[0] in xs;
    forall i, j | 0 <= i < j < |rest| ensures rest[i] != rest[j] {
      assert rest[i] == xs[i + 1] && rest[j] == xs[j + 1];
    }
    forall y | y in rest ensures y !in s + [xs[0]] {
      var k :| 0 <= k < |rest| && rest[k] == y;
      assert y == xs[k + 1];
    }
  }

  /** Adding the classes of a disjoint, duplicate-free sequence to a linked set appends them. */
  lemma {:induction false} AddAllDisjoint(s: seq<JClass>, xs: seq<JClass>)
    requires NoDuplicates(xs) && forall x :: x in xs ==> x !in s
    ensures AddAll(s, xs) == s + xs
    decreases |xs|
  {
    if |xs| > 0 {
      DisjointTail(s, xs);
      AddAllDisjoint(s + [xs[0]], xs[1..]);
      assert s + [xs[0]] + xs[1..] == s + xs;
    }
  }

  /** Extending is transitive. */
  lemma Chain(cp: Classpath, w: Walk, w1: Walk, r: Walk)
    requires Extends(cp, w, w1) && Extends(cp, w1, r)
    ensures Extends(cp, w, r)
  {
    var n, n1 := |w.types|, |w1.types|;
    assert r.types[..n] == r.types[..n1][..n];
    forall x | x in r.seen
      ensures x in w.seen || x in r.types[n..]
    {
      if x !in w1.seen {
        assert x in r.types[n1..];
      } else if x !in w.seen {
        assert x in w1.types[n..];
        assert w1.types[n..] == r.types[n..n1];
      }
    }
    forall i | n <= i < |r.types|
      ensures r.types[i] !in w.seen && !Excluded(r.types[i]) && Covered(cp, r.types[i], r.seen)
    {
      if i < n1 {
        assert r.types[i] == w1.types[i];
        CoveredGrows(cp, r.types[i], w1.seen, r.seen);
      }
    }
  }

  /** What a `collectTypes` call returns, appended to the collected classes. */
  lemma Appended(cp: Classpath, w: Walk, sub: Walk)
    requires WalkInv(w) && WalkInv(sub) && Extends(cp, Walk(w.seen, []), sub)
    ensures var r := Walk(sub.seen, AddAll(w.types, sub.types)); WalkInv(r) && Extends(cp, w, r)
  {
    AddAllDisjoint(w.types, sub.types);
    var r := Walk(sub.seen, w.types + sub.types);
    assert r.types[|w.types|..] == sub.types;
    forall i, j | 0 <= i < j < |r.types|
      ensures r.types[i] != r.types[j]
    {
      if i < |w.types| && j >= |w.types| {
        assert r.types[j] == sub.types[j - |w.types|];
      }
    }
  }

  /** The walk below a newly collected class, seen from the caller's state. */
  lemma Rooted(cp: Classpath, c: JClass, seen: set<JClass>, r: Walk)
    requires c in cp && c !in seen && !Excluded(c)
    requires WalkInv(r) && Extends(cp, Walk(seen + {c}, [c]), r)
    requires forall t :: t in cp[c] ==> forall x :: x in Contributions(t) ==> x in r.seen || Excluded(x)
    ensures Extends(cp, Walk(seen, []), r) && r.types != [] && r.types[0] == c
  {
    assert r.types[..1] == [c];
    assert Covered(cp, c, r.seen);
    forall x | x in r.seen
      ensures x in seen || x in r.types[0..]
    {
      assert r.types[0..] == r.types;
      if x == c {
        assert r.types[0] == c;
      } else if x !in seen {
        assert x !in (seen + {c});
        assert x in r.types[1..];
      }
    }
  }
  /** The `!seen.contains(x)` guard in front of a visit changes nothing, since
      `collectTypes` checks the seen set itself. */
  lemma GuardIsRedundant(cp: Classpath, x: JClass, w: Walk)
    requires WalkInv(w)
    ensures Guarded(cp, x, w) == Visit(cp, x, w)
  {
    if x in w.seen {
      assert CollectTypes(cp, x, w.seen) == Walk(w.seen, []);
    }
  }

  /** Once collected, a class is never collected again by the same scanner. */
  lemma CollectedOnce(cp: Classpath, c: JClass, seen: set<JClass>)
    ensures var r := CollectTypes(cp, c, seen);
      CollectTypes(cp, c, r.seen).types == [] && (c in r.seen <==> c in seen || !Excluded(c))
  {
    var r := CollectTypes(cp, c, seen);
    if !(c in seen || Excluded(c)) {
      assert r.types[0] == c;
      assert c in Elems(r.types);
    }
  }

  // ---------------------------------------------------------------------------------
  // Repositories and the package scan

  /** A repository interface as `AbstractRepositoryMetadata` describes it: its domain type and
      the return types of the methods `ReflectionUtils.doWithMethods` visits, in order. */
  datatype Repository = Repository(domain: JClass, returnTypes: seq<RType>)

  /** One method's return type: as for a field, except that a map's value is guarded like its
      key, and a primitive or wrapper actual type is skipped before the guard. */
  function RepoContribute(cp: Classpath, t: RType, w: Walk): (r: Walk)
    requires WalkInv(w)
    ensures WalkInv(r) && Extends(cp, w, r)
  {
    if IsCollectionLikeTI(t) then
      Guarded(cp, TIType(ComponentTI(t)), w)
    else if IsMapTI(t) then
      var w1 := Guarded(cp, TIType(ComponentTI(t)), w);
      var r := Guarded(cp, TIType(MapValueTI(t)), w1);
      Chain(cp, w, w1, r);
      r
    else if IsPrimitiveOrWrapper(TIType(ActualTI(t))) then
      w
    else
      Guarded(cp, TIType(ActualTI(t)), w)
  }

  function CollectReturns(cp: Classpath, ts: seq<RType>, w: Walk): (r: Walk)
    requires WalkInv(w)
    ensures WalkInv(r) && Extends(cp, w, r)
    decreases |ts|
  {
    if |ts| == 0 then w
    else
      var w1 := RepoContribute(cp, ts[0], w);
      var r := CollectReturns(cp, ts[1..], w1);
      Chain(cp, w, w1, r);
      r
  }

  /** A method's return type is walked exactly like a field of that type. */
  lemma RepoContributeAgrees(cp: Classpath, t: RType, w: Walk)
    requires WalkInv(w)
    ensures RepoContribute(cp, t, w) == Contribute(cp, t, w)
  {
    if !IsCollectionLikeTI(t) && IsMapTI(t) {
      GuardIsRedundant(cp, TIType(MapValueTI(t)), Guarded(cp, TIType(ComponentTI(t)), w));
    } else if !IsCollectionLikeTI(t) && IsPrimitiveOrWrapper(TIType(ActualTI(t))) {
      var x := TIType(ActualTI(t));
      assert Excluded(x);
      assert RepoContribute(cp, t, w) == w;
      assert Contribute(cp, t, w) == Guarded(cp, x, w);
      if x !in w.seen {
        assert CollectTypes(cp, x, w.seen) == Walk(w.seen, []);
        assert AddAll(w.types, []) == w.types;
        assert Visit(cp, x, w) == w;
      }
    }
  }

  lemma {:induction false} CollectReturnsAgree(cp: Classpath, ts: seq<RType>, w: Walk)
    requires WalkInv(w)
    ensures CollectReturns(cp, ts, w) == CollectFields(cp, ts, w)
    decreases |ts|
  {
    if |ts| > 0 {
      RepoContributeAgrees(cp, ts[0], w);
      CollectReturnsAgree(cp, ts[1..], RepoContribute(cp, ts[0], w));
    }
  }

  /** `collectTypesForRepositiory`: the domain type's walk, then every method's return type.
      The domain type and every class a return type hands on end up seen unless refused. */
  function CollectForRepository(cp: Classpath, repo: Repository, seen: set<JClass>): (r: Walk)
    ensures WalkInv(r) && Extends(cp, Walk(seen, []), r)
    ensures repo.domain in r.seen || Excluded(repo.domain)
    ensures forall t :: t in repo.returnTypes ==> forall x :: x in Contributions(t) ==> x in r.seen || Excluded(x)
  {
    var first := CollectTypes(cp, repo.domain, seen);
    assert !(repo.domain in seen || Excluded(repo.domain)) ==> repo.domain in Elems(first.types);
    CollectReturnsAgree(cp, repo.returnTypes, first);
    var r := CollectReturns(cp, repo.returnTypes, first);
    Chain(cp, Walk(seen, []), first, r);
    r
  }

  /** A class found in the package: whether it is annotated `@Persistent` or assignable to
      `Persistable`, and its repository metadata when it is assignable to `Repository`. */
  datatype Candidate = Candidate(cls: JClass, persistent: bool, repository: Option<Repository>)

  /** The `*.class` resources under the package, each resolved to its class when one is
      present; or a listing that failed with an `IOException`. */
  datatype Listing = Listing(entries: seq<Option<Candidate>>) | Unreadable

  /** The root selection: an unseen persistent class is walked; otherwise an unseen repository
      contributes its types; every other resource is skipped. The results are concatenated
      in resource order. */
  function ScanEntries(cp: Classpath, es: seq<Option<Candidate>>, w: Walk): (r: Walk)
    requires WalkInv(w)
    ensures WalkInv(r) && Extends(cp, w, r)
    ensures forall e :: e in es && e.Some? && e.value.persistent ==> e.value.cls in r.seen || Excluded(e.value.cls)
    decreases |es|
  {
    if |es| == 0 then w
    else
      var w1 := ScanEntry(cp, es[0], w);
      var r := ScanEntries(cp, es[1..], w1);
      Chain(cp, w, w1, r);
      assert forall e :: e in es ==> e == es[0] || e in es[1..];
      r
  }

  /** One resource of the package. */
  function ScanEntry(cp: Classpath, e: Option<Candidate>, w: Walk): (r: Walk)
    requires WalkInv(w)
    ensures WalkInv(r) && Extends(cp, w, r)
    ensures e.Some? && e.value.persistent ==> e.value.cls in r.seen || Excluded(e.value.cls)
    ensures e.Some? && !e.value.persistent && e.value.repository.Some? && e.value.cls !in w.seen ==>
      var repo := e.value.repository.value; repo.domain in r.seen || Excluded(repo.domain)
  {
    if e.None? || e.value.cls in w.seen then w
    else if e.value.persistent then
      var sub := CollectTypes(cp, e.value.cls, w.seen);
      assert !Excluded(e.value.cls) ==> e.value.cls in Elems(sub.types);
      Root(cp, sub, w)
    else if e.value.repository.Some? then
      Root(cp, CollectForRepository(cp, e.value.repository.value, w.seen), w)
    else w
  }

  /** `domainTypes.addAll(...)` on the list of roots' types. */
  function Root(cp: Classpath, sub: Walk, w: Walk): (r: Walk)
    requires WalkInv(w) && WalkInv(sub) && Extends(cp, Walk(w.seen, []), sub)
    ensures WalkInv(r) && Extends(cp, w, r) && r.seen == sub.seen
  {
    Appended(cp, w, sub);
    AddAllDisjoint(w.types, sub.types);
    Walk(sub.seen, w.types + sub.types)
  }

  /** `collectTypes(packageName, types, condition)` on a scanner in state `seen`. A listing
      failure becomes an `IllegalStateException`; otherwise the classes collected are distinct,
      new to the scanner and never refused, and they are exactly what the scanner newly saw.
      The selection predicate `scan` passes in is never consulted. */
  function Scan(cp: Classpath, packageName: string, listing: Listing, seen: set<JClass>): (r: Result<Walk>)
    ensures r.Failure? <==> listing.Unreadable?
    ensures r.Failure? ==> r.error == IllegalState("Cannot locate resources in package: " + packageName)
    ensures r.Success? ==> NoDuplicates(r.value.types) && r.value.seen == seen + Elems(r.value.types)
    ensures r.Success? ==> forall x :: x in r.value.types ==> x !in seen && !Excluded(x) && Covered(cp, x, r.value.seen)
    ensures r.Success? ==> forall e :: e in listing.entries && e.Some? && e.value.persistent ==>
      e.value.cls in r.value.seen || Excluded(e.value.cls)
  {
    match listing
    case Unreadable => Failure(IllegalState("Cannot locate resources in package: " + packageName))
    case Listing(es) =>
      var r := ScanEntries(cp, es, Walk(seen, []));
      assert r.types[0..] == r.types;
      assert forall x :: x in r.types ==> exists i :: 0 <= i < |r.types| && r.types[i] == x;
      Success(r)
  }

  // ---------------------------------------------------------------------------------
  // A cycle

  const Author: JClass := Cls("app.Author", "app.Author", "Author", Some("app"), OtherKind, Some(ObjectClass), false, 0, false, false)
  const Book: JClass := Cls("app.Book", "app.Book", "Book", Some("app"), OtherKind, Some(ObjectClass), false, 0, false, false)

  /** An author refers to a book and the book back to its author. */
  const Library: Classpath := map[Author := [Raw(Book)], Book := [Raw(Author)]]

  /** Reached from the author, the book is collected and its field back to the author stops. */
  lemma BookAfterAuthor()
    ensures CollectTypes(Library, Book, {Author}) == Walk({Author, Book}, [Book])
  {
    var w1 := Walk({Author, Book}, [Book]);
    assert Name(Book)[0] == 'a' && !Excluded(Book);
    assert Author != Book && Book in Library && Library[Book] == [Raw(Author)];
    assert TIType(ActualTI(Raw(Author))) == Author;
    assert Guarded(Library, Author, w1) == w1;
    assert Contribute(Library, Raw(Author), w1) == w1;
    assert CollectFields(Library, [], w1) == w1;
    assert CollectFields(Library, [Raw(Author)], w1) == w1;
    assert {Author} + {Book} == {Author, Book};
  }

  /** Two classes that refer to each other are each collected once, the root first. */
  lemma CycleTerminates()
    ensures CollectTypes(Library, Author, {}).types == [Author, Book]
  {
    var w0 := Walk({Author}, [Author]);
    var r := Walk({Author, Book}, [Author, Book]);
    assert Name(Author)[0] == 'a' && !Excluded(Author);
    assert Author in Library && Library[Author] == [Raw(Book)];
    assert TIType(ActualTI(Raw(Book))) == Book;
    BookAfterAuthor();
    assert AddAll([Author], [Book]) == [Author, Book];
    assert Visit(Library, Book, w0) == r;
    assert Contribute(Library, Raw(Book), w0) == r;
    assert CollectFields(Library, [Raw(Book)], w0) == r;
    assert {} + {Author} == {Author};
  }
}
