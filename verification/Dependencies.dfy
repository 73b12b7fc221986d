/** The dependency phase of check_deps. Names and versions are strings here; the program keeps
    their indices, which are equal exactly if the strings are. */
module Dependencies {
  import opened Bits
  import opened Probing
  import opened NameTable
  import opened VersionOrder

  datatype Op = Null | Any | Equal | Less | LessEqual | More | MoreEqual

  // The kinds of edges that matter here; the others are of no consequence to dependencies.
  datatype Kind = PreDepends | OrPreDepends | Depends | OrDepends | Provides | OtherKind

  // An edge; count is the number of alternatives that follow an edge that opens an OR group.
  datatype Edge = Edge(op: Op, kind: Kind, name: Name, version: Name, count: nat)

  datatype Package = Package(name: Name, version: Name, edges: seq<Edge>)

  // The status of a package, by its slot in the package table: want, flag and state words.
  datatype Status = Status(package: nat, words: Name)

  datatype Db = Db(packages: Table<Package>, statuses: Table<Status>)

  // test_version
  function Test(v1: Name, v2: Name, op: Op): bool
  {
    var r := Order3(Split(v1), Split(v2));
    match op
    case Null => false
    case Any => true
    case Equal => r == 0
    case Less => r < 0
    case LessEqual => r <= 0
    case More => r > 0
    case MoreEqual => r >= 0
  }

  // The operators are those of one order: exactly one of Less, Equal and More holds, the others are
  // made from them, and exchanging the versions exchanges Less and More.
  lemma {:induction false} OperatorLaws(v: Name, w: Name)
    ensures Test(v, w, LessEqual) <==> Test(v, w, Less) || Test(v, w, Equal)
    ensures Test(v, w, MoreEqual) <==> Test(v, w, More) || Test(v, w, Equal)
    ensures Test(v, w, Less) || Test(v, w, Equal) || Test(v, w, More)
    ensures !(Test(v, w, Less) && Test(v, w, Equal)) && !(Test(v, w, Less) && Test(v, w, More))
            && !(Test(v, w, Equal) && Test(v, w, More))
    ensures (Test(v, w, More) <==> Test(w, v, Less)) && (Test(v, w, Equal) <==> Test(w, v, Equal))
    ensures Test(v, v, Equal) && Test(v, w, Any) && !Test(v, w, Null)
  {
    hide Order3, Split;
    OrderReverse(Split(v), Split(w));
  }

  lemma {:induction false} LessTransitive(u: Name, v: Name, w: Name)
    requires Test(u, v, Less) && Test(v, w, Less)
    ensures Test(u, w, Less)
  {
    hide Order3, Split;
    OrderTransitive(Split(u), Split(v), Split(w));
  }

  // Which way it goes: "1.0~rc" is less than "1.0", and a larger epoch is more.
  lemma {:induction false} TildeIsLess(t: Name, s: Name)
    requires ':' as int !in t && '-' as int !in t && ':' as int !in s && '-' as int !in s
    ensures Test(t + (['~' as int] + s), t, Less)
  {
    hide Key, Lex, Split;
    SplitBack(None, t, None);
    SplitBack(None, t + (['~' as int] + s), None);
    assert Written(None, t, None) == t;
    assert Written(None, t + (['~' as int] + s), None) == t + (['~' as int] + s);
    TildeFirst(t, s);
  }

  lemma {:induction false} LargerEpochIsMore(e: Name, t: Name, f: Name, s: Name)
    requires AllDigits(e) && AllDigits(f) && e != [] && f != [] && '-' as int !in t && '-' as int !in s
    requires Number(e) > Number(f)
    ensures Test(Written(Some(e), t, None), Written(Some(f), s, None), More)
  {
    hide Key, Lex, Split;
    SplitBack(Some(e), t, None);
    SplitBack(Some(f), s, None);
  }

  // The upstream version decides before the revision does.
  lemma {:induction false} RevisionLast(t: Name, r: Name, s: Name, q: Name)
    requires ':' as int !in t && ':' as int !in r && '-' as int !in r
    requires ':' as int !in s && ':' as int !in q && '-' as int !in q
    ensures var upstream, revision := Lex(Key(t), Key(s)), Lex(Key(r), Key(q));
            Test(Written(None, t, Some(r)), Written(None, s, Some(q)), Less)
            <==> upstream < 0 || (upstream == 0 && revision < 0)
  {
    hide Key, Lex, Split;
    SplitBack(None, t, Some(r));
    SplitBack(None, s, Some(q));
  }

  function Matches(p: Package, name: Name, version: Name, op: Op): bool
  {
    p.name == name && (op == Any || Test(p.version, version, op))
  }

  predicate IsSpace(c: byte) { c == 32 }
  predicate InWord(c: byte) { c != 32 }
  predicate InLine(c: byte) { c != 32 && c != 10 }

  // get_status: the k-th word, from 1.
  function Word(s: Name, k: nat): Name
    decreases k
  {
    if k <= 1 then s[..Span(s, InLine)]
    else
      var t := s[Span(s, InWord)..];
      Word(t[Span(t, IsSpace)..], k - 1)
  }

  const INSTALL: Name := [105, 110, 115, 116, 97, 108, 108]
  const INSTALLED: Name := [105, 110, 115, 116, 97, 108, 108, 101, 100]

  ghost predicate PlainWord(w: Name) { forall i :: 0 <= i < |w| ==> w[i] != 32 && w[i] != 10 }

  // A status has three words, want, flag and status, with spaces between them; a line may end it.
  lemma {:induction false} StatusWords(a: Name, b: Name, c: Name, m: nat, n: nat, end: Name)
    requires PlainWord(a) && PlainWord(b) && b != [] && PlainWord(c) && c != [] && m > 0 && n > 0
    requires end == [] || end[0] == 10
    ensures var s := a + (Text(Blank(m)) + (b + (Text(Blank(n)) + (c + end))));
            Word(s, 1) == a && Word(s, 2) == b && Word(s, 3) == c
    ensures INSTALL == Text("install") && INSTALLED == Text("installed")
  {
    hide Span;
    var t2 := c + end;
    var t1 := b + (Text(Blank(n)) + t2);
    WordFirst(c, end);
    WordFirst(b, Text(Blank(n)) + t2);
    WordFirst(a, Text(Blank(m)) + t1);
    NextWord(b, n, t2, 2);
    NextWord(a, m, t1, 2);
    NextWord(a, m, t1, 3);
  }

  function Blank(n: nat): (s: string)
    ensures |s| == n
  {
    seq(n, _ => ' ')
  }

  lemma {:induction false} WordFirst(a: Name, rest: Name)
    requires PlainWord(a) && (rest == [] || rest[0] == 32 || rest[0] == 10)
    ensures Word(a + rest, 1) == a
  {
    SpanOver(a, rest, InLine);
  }

  lemma {:induction false} NextWord(a: Name, m: nat, rest: Name, k: nat)
    requires PlainWord(a) && m > 0 && rest != [] && rest[0] != 32 && k > 1
    ensures Word(a + (Text(Blank(m)) + rest), k) == Word(rest, k - 1)
  {
    var gap := Text(Blank(m));
    SpanOver(a, gap + rest, InWord);
    SpanOver(gap, rest, IsSpace);
    assert (a + (gap + rest))[|a|..] == gap + rest;
    assert (gap + rest)[|gap|..] == rest;
  }

  ghost predicate PackagesOk(t: Table<Package>)
  {
    Prime(|t|) && forall i :: 0 <= i < |t| && t[i].Some? ==> Reachable(t, t[i].value.name, i)
  }

  // The name of the package that a status belongs to.
  function StatusName(t: Table<Package>, s: Status): Name
  {
    if s.package < |t| && t[s.package].Some? then t[s.package].value.name else []
  }

  ghost predicate StatusesOk(db: Db)
  {
    && Prime(|db.statuses|)
    && (forall i :: 0 <= i < |db.statuses| && db.statuses[i].Some? ==>
          db.statuses[i].value.package < |db.packages| && db.packages[db.statuses[i].value.package].Some?)
    && (forall i :: 0 <= i < |db.statuses| && db.statuses[i].Some? ==>
          Reachable(db.statuses, StatusName(db.packages, db.statuses[i].value), i))
    && (forall i, j :: 0 <= i < |db.statuses| && 0 <= j < |db.statuses| ==> Distinct(db, i, j))
  }

  // No two statuses for one name.
  ghost predicate Distinct(db: Db, i: nat, j: nat)
    requires i < |db.statuses| && j < |db.statuses|
  {
    (db.statuses[i].Some? && db.statuses[j].Some?
     && StatusName(db.packages, db.statuses[i].value) == StatusName(db.packages, db.statuses[j].value))
    ==> i == j
  }

  // Every search has a free slot to end at.
  ghost predicate Valid(db: Db)
  {
    && PackagesOk(db.packages) && StatusesOk(db)
    && (exists i :: 0 <= i < |db.packages| && db.packages[i].None?)
    && (exists i :: 0 <= i < |db.statuses| && db.statuses[i].None?)
  }

  // search_package_hashtable: an entry that matches if there is one, and a free slot otherwise.
  method FindPackage(db: Db, name: Name, version: Name, op: Op) returns (a: nat)
    requires Valid(db)
    ensures a < |db.packages| && (db.packages[a].Some? ==> Matches(db.packages[a].value, name, version, op))
    ensures db.packages[a].None? ==> forall i :: 0 <= i < |db.packages| && db.packages[i].Some?
                                                 ==> !Matches(db.packages[i].value, name, version, op)
  {
    ghost var slot :| 0 <= slot < |db.packages| && db.packages[slot].None?;
    var fits := (p: Package) => Matches(p, name, version, op);
    ghost var n;
    a, n := Search(db.packages, name, fits, slot);
    forall i | 0 <= i < |db.packages| && db.packages[i].Some? && Matches(db.packages[i].value, name, version, op)
      ensures db.packages[a].Some?
    {
      SearchFinds(db.packages, name, fits, n, a, i);
    }
  }

  // search_status_hashtable
  method FindStatus(db: Db, name: Name) returns (a: nat)
    requires Valid(db)
    ensures a < |db.statuses| && (db.statuses[a].Some? ==> StatusName(db.packages, db.statuses[a].value) == name)
    ensures db.statuses[a].None? ==> forall i :: 0 <= i < |db.statuses| && db.statuses[i].Some?
                                                 ==> StatusName(db.packages, db.statuses[i].value) != name
  {
    ghost var slot :| 0 <= slot < |db.statuses| && db.statuses[slot].None?;
    var fits := (s: Status) => StatusName(db.packages, s) == name;
    ghost var n;
    a, n := Search(db.statuses, name, fits, slot);
    forall i | 0 <= i < |db.statuses| && db.statuses[i].Some? && StatusName(db.packages, db.statuses[i].value) == name
      ensures db.statuses[a].Some?
    {
      SearchFinds(db.statuses, name, fits, n, a, i);
    }
  }

  // The package of this name has a status whose k-th word is w.
  ghost predicate HasWord(db: Db, name: Name, k: nat, w: Name)
  {
    exists i :: 0 <= i < |db.statuses| && db.statuses[i].Some? && StatusIs(db, i, name, k, w)
  }

  ghost predicate StatusIs(db: Db, i: nat, name: Name, k: nat, w: Name)
    requires i < |db.statuses| && db.statuses[i].Some?
  {
    StatusName(db.packages, db.statuses[i].value) == name && Word(db.statuses[i].value.words, k) == w
  }

  method CheckWord(db: Db, name: Name, k: nat, w: Name) returns (yes: bool)
    requires Valid(db)
    ensures yes <==> HasWord(db, name, k, w)
  {
    var a := FindStatus(db, name);
    if db.statuses[a].None? {
      return false;
    }
    yes := Word(db.statuses[a].value.words, k) == w;
    if yes { assert StatusIs(db, a, name, k, w); }
    forall i | 0 <= i < |db.statuses| && db.statuses[i].Some? && StatusIs(db, i, name, k, w) ensures i == a {
      assert Distinct(db, i, a);
    }
  }

  // A package of this name can satisfy a dependency of the kind: it is installed, or wanted.
  ghost predicate Available(db: Db, name: Name, kind: Kind)
  {
    (kind == PreDepends && HasWord(db, name, 3, INSTALLED)) || (kind == Depends && HasWord(db, name, 1, INSTALL))
  }

  // package_satisfies_dependency
  method SatisfiesDependency(db: Db, name: Name, kind: Kind) returns (yes: bool)
    requires Valid(db)
    ensures yes <==> Available(db, name, kind)
  {
    hide Valid;
    if kind == PreDepends {
      yes := CheckWord(db, name, 3, INSTALLED);
    } else if kind == Depends {
      yes := CheckWord(db, name, 1, INSTALL);
    } else {
      yes := false;
    }
  }

  predicate ProvidesName(p: Package, name: Name)
  {
    exists j :: 0 <= j < |p.edges| && p.edges[j].kind == Provides && p.edges[j].name == name
  }

  // search_for_provides: the next package behind start that provides name, or the end.
  method NextProvider(db: Db, name: Name, start: nat) returns (i: nat)
    requires start <= |db.packages|
    ensures start <= i <= |db.packages|
            && (i < |db.packages| ==> db.packages[i].Some? && ProvidesName(db.packages[i].value, name))
    ensures forall k :: start <= k < i && db.packages[k].Some? ==> !ProvidesName(db.packages[k].value, name)
  {
    i := start;
    while i < |db.packages|
      invariant start <= i <= |db.packages|
      invariant forall k :: start <= k < i && db.packages[k].Some? ==> !ProvidesName(db.packages[k].value, name)
    {
      if db.packages[i].Some? {
        var p := db.packages[i].value;
        for j := 0 to |p.edges|
          invariant forall k :: 0 <= k < j ==> !(p.edges[k].kind == Provides && p.edges[k].name == name)
        {
          if p.edges[j].kind == Provides && p.edges[j].name == name {
            return;
          }
        }
      }
      i := i + 1;
    }
  }

  // An alternative is satisfied by a package of its name whose version matches, or by a package
  // that provides its name.
  ghost predicate Candidate(db: Db, e: Edge, i: nat)
    requires i < |db.packages|
  {
    && db.packages[i].Some?
       && (Matches(db.packages[i].value, e.name, e.version, e.op) || ProvidesName(db.packages[i].value, e.name))
    && Available(db, db.packages[i].value.name, e.kind)
  }

  ghost predicate EdgeOk(db: Db, e: Edge)
  {
    exists i :: 0 <= i < |db.packages| && Candidate(db, e, i)
  }

  method ProviderSatisfies(db: Db, e: Edge) returns (ok: bool)
    requires Valid(db)
    ensures ok ==> EdgeOk(db, e)
    ensures !ok ==> forall k :: (0 <= k < |db.packages| && db.packages[k].Some?
                                 && ProvidesName(db.packages[k].value, e.name))
                                ==> !Available(db, db.packages[k].value.name, e.kind)
  {
    hide Valid, Available;
    var i := NextProvider(db, e.name, 0);
    while i < |db.packages|
      invariant 0 <= i <= |db.packages|
                && (i < |db.packages| ==> db.packages[i].Some? && ProvidesName(db.packages[i].value, e.name))
      invariant forall k :: 0 <= k < i && db.packages[k].Some? && ProvidesName(db.packages[k].value, e.name)
                            ==> !Available(db, db.packages[k].value.name, e.kind)
    {
      ok := SatisfiesDependency(db, db.packages[i].value.name, e.kind);
      if ok {
        assert Candidate(db, e, i);
        return;
      }
      i := NextProvider(db, e.name, i + 1);
    }
    ok := false;
  }

  // One edge of the loop over the alternatives.
  method EdgeSatisfied(db: Db, e: Edge) returns (ok: bool)
    requires Valid(db)
    ensures ok <==> EdgeOk(db, e)
  {
    hide Valid, Available;
    var a := FindPackage(db, e.name, e.version, e.op);
    ok := false;
    if db.packages[a].Some? {
      ok := SatisfiesDependency(db, db.packages[a].value.name, e.kind);
      if ok {
        assert Candidate(db, e, a);
        return;
      }
    }
    ok := ProviderSatisfies(db, e);
  }

  // A dependency as add_split_dependencies encodes it in edges: a single one, a group of
  // alternatives behind an edge that counts them, or an edge that is not a dependency.
  datatype Dep = One(e: Edge) | Group(root: Edge, alts: seq<Edge>) | Misc(e: Edge)

  function OrKind(k: Kind): Kind { if k == PreDepends then OrPreDepends else OrDepends }

  ghost predicate WellFormed(d: Dep)
  {
    match d
    case One(e) => e.kind == PreDepends || e.kind == Depends
    case Misc(e) => e.kind == Provides || e.kind == OtherKind
    case Group(root, alts) =>
      && root.count == |alts| >= 1 && (root.kind == OrPreDepends || root.kind == OrDepends)
      && forall k :: 0 <= k < |alts| ==> AltOf(root, alts[k])
  }

  ghost predicate AltOf(root: Edge, e: Edge)
  {
    (e.kind == PreDepends || e.kind == Depends) && root.kind == OrKind(e.kind)
  }

  function Encode(d: Dep): (s: seq<Edge>)
    ensures |s| >= 1
  {
    match d case One(e) => [e] case Misc(e) => [e] case Group(root, alts) => [root] + alts
  }

  function EncodeAll(ds: seq<Dep>): seq<Edge>
  {
    if ds == [] then [] else EncodeAll(ds[..|ds| - 1]) + Encode(ds[|ds| - 1])
  }

  // The dependency is satisfied: one of its alternatives is.
  ghost predicate DepOk(db: Db, d: Dep)
  {
    match d
    case One(e) => EdgeOk(db, e)
    case Misc(_) => true
    case Group(_, alts) => exists k :: 0 <= k < |alts| && EdgeOk(db, alts[k])
  }

  // The kind of an edge tells where it stands in its dependency.
  lemma {:induction false} KindAt(d: Dep, n: nat)
    requires WellFormed(d) && n < |Encode(d)|
    ensures Encode(d)[n].kind == OrPreDepends || Encode(d)[n].kind == OrDepends <==> d.Group? && n == 0
    ensures Encode(d)[n].kind == Provides || Encode(d)[n].kind == OtherKind <==> d.Misc?
    ensures d.Group? && n > 0 ==> AltOf(d.root, Encode(d)[n])
  {
    if d.Group? && n > 0 { assert AltOf(d.root, d.alts[n - 1]); }
  }

  lemma {:induction false} EncodeStep(ds: seq<Dep>, k: nat)
    requires k < |ds|
    ensures EncodeAll(ds[..k + 1]) == EncodeAll(ds[..k]) + Encode(ds[k])
  {
    hide Encode;
    assert ds[..k + 1][..k] == ds[..k];
  }

  lemma {:induction false} EncodePrefix(ds: seq<Dep>, k: nat)
    requires k <= |ds|
    ensures EncodeAll(ds[..k]) <= EncodeAll(ds)
    decreases |ds| - k
  {
    hide Encode;
    if k < |ds| {
      EncodeStep(ds, k);
      EncodePrefix(ds, k + 1);
    } else {
      assert ds[..k] == ds;
    }
  }

  // Where edge j of the list stands: at dependency k, n edges into it.
  ghost predicate Cursor(ds: seq<Dep>, j: nat, k: nat, n: nat)
  {
    k <= |ds| && j == |EncodeAll(ds[..k])| + n && (k == |ds| ==> n == 0) && (k < |ds| ==> n < |Encode(ds[k])|)
  }

  lemma {:induction false} CursorEdge(ds: seq<Dep>, edges: seq<Edge>, j: nat, k: nat, n: nat)
    requires edges == EncodeAll(ds) && Cursor(ds, j, k, n)
    ensures j < |edges| <==> k < |ds|
    ensures k < |ds| ==> edges[j] == Encode(ds[k])[n]
    ensures k < |ds| && n + 1 < |Encode(ds[k])| ==> Cursor(ds, j + 1, k, n + 1)
    ensures k < |ds| ==> Cursor(ds, j + (|Encode(ds[k])| - n), k + 1, 0)
  {
    hide Encode, EncodeAll;
    if k < |ds| {
      EncodeStep(ds, k);
      EncodePrefix(ds, k + 1);
    } else {
      assert ds[..k] == ds;
    }
  }

  // The state of the loop over the edges: at a boundary between dependencies, or t alternatives
  // into a group with none satisfied so far.
  ghost predicate LoopState(db: Db, ds: seq<Dep>, k: nat, n: nat, left: nat, root: Option<Edge>)
  {
    if n == 0 then left == 0 || (left == 1 && root.None?)
    else
      && k < |ds| && ds[k].Group? && n <= |ds[k].alts| && root == Some(ds[k].root) && left == |ds[k].alts| - (n - 1)
      && forall i :: 0 <= i < n - 1 ==> !EdgeOk(db, ds[k].alts[i])
  }

  ghost predicate Done(db: Db, ds: seq<Dep>, k: nat)
  {
    k <= |ds| && forall i :: 0 <= i < k ==> DepOk(db, ds[i])
  }

  // The loop stands before edge j, with every dependency before it satisfied.
  ghost predicate Stands(db: Db, ds: seq<Dep>, j: nat, k: nat, n: nat, left: nat, root: Option<Edge>)
  {
    Cursor(ds, j, k, n) && LoopState(db, ds, k, n, left, root) && Done(db, ds, k)
  }

  ghost predicate AllWellFormed(ds: seq<Dep>)
  {
    forall i :: 0 <= i < |ds| ==> WellFormed(ds[i])
  }

  ghost predicate AllOk(db: Db, ds: seq<Dep>)
  {
    forall i :: 0 <= i < |ds| ==> DepOk(db, ds[i])
  }

  // Edge j is the n-th of dependency k.
  ghost predicate Here(ds: seq<Dep>, edges: seq<Edge>, j: nat, k: nat, n: nat)
  {
    k < |ds| && n < |Encode(ds[k])| && j < |edges| && edges[j] == Encode(ds[k])[n] && WellFormed(ds[k])
  }

  lemma {:induction false} StartAt(db: Db, ds: seq<Dep>)
    ensures Stands(db, ds, 0, 0, 0, 0, None)
  {
    assert EncodeAll(ds[..0]) == [];
  }

  // What edge j is.
  lemma {:induction false} EdgeAt(db: Db, ds: seq<Dep>, edges: seq<Edge>, j: nat, k: nat, n: nat, left: nat,
      root: Option<Edge>)
    requires edges == EncodeAll(ds) && AllWellFormed(ds) && Stands(db, ds, j, k, n, left, root)
    ensures j >= |edges| ==> AllOk(db, ds)
    ensures j < |edges| ==> Here(ds, edges, j, k, n)
  {
    hide Encode, EncodeAll;
    CursorEdge(ds, edges, j, k, n);
  }

  lemma {:induction false} RootStep(db: Db, ds: seq<Dep>, edges: seq<Edge>, j: nat, k: nat, n: nat, left: nat,
      root: Option<Edge>)
    requires edges == EncodeAll(ds) && Stands(db, ds, j, k, n, left, root)
    requires Here(ds, edges, j, k, n)
    requires edges[j].kind == OrPreDepends || edges[j].kind == OrDepends
    ensures Stands(db, ds, j + 1, k, 1, edges[j].count, Some(edges[j]))
  {
    hide EncodeAll, EdgeOk;
    CursorEdge(ds, edges, j, k, n);
    KindAt(ds[k], n);
  }

  // A dependency is done with: the loop goes on behind it.
  lemma {:induction false} DepStep(db: Db, ds: seq<Dep>, edges: seq<Edge>, j: nat, k: nat, n: nat, left: nat,
      root: Option<Edge>, left': nat, root': Option<Edge>)
    requires edges == EncodeAll(ds) && Stands(db, ds, j, k, n, left, root)
    requires k < |ds| && DepOk(db, ds[k]) && n < |Encode(ds[k])| && (left' == 0 || (left' == 1 && root'.None?))
    ensures Stands(db, ds, j + (|Encode(ds[k])| - n), k + 1, 0, left', root')
  {
    hide Encode, EncodeAll, DepOk;
    CursorEdge(ds, edges, j, k, n);
  }

  // Inside a group the number of alternatives left is known, and the kinds agree; outside, the
  // edge is alone.
  lemma {:induction false} InsideStep(db: Db, ds: seq<Dep>, e: Edge, j: nat, k: nat, n: nat, left: nat,
      root: Option<Edge>)
    requires Stands(db, ds, j, k, n, left, root) && k < |ds| && n < |Encode(ds[k])| && e == Encode(ds[k])[n]
             && WellFormed(ds[k])
    requires e.kind == PreDepends || e.kind == Depends
    ensures ds[k].Group? ==> n > 0 && left == |Encode(ds[k])| - n && root == Some(ds[k].root) && AltOf(ds[k].root, e)
    ensures !ds[k].Group? ==> ds[k] == One(e) && n == 0 && (left == 0 || (left == 1 && root.None?))
  {
    hide EncodeAll, EdgeOk, DepOk;
    KindAt(ds[k], n);
  }

  lemma {:induction false} FailStep(db: Db, ds: seq<Dep>, edges: seq<Edge>, j: nat, k: nat, n: nat, left: nat,
      root: Option<Edge>)
    requires edges == EncodeAll(ds) && Stands(db, ds, j, k, n, left, root)
    requires Here(ds, edges, j, k, n)
    requires ds[k].Group? && n > 0 && left == |Encode(ds[k])| - n && !EdgeOk(db, edges[j])
    ensures left > 1 ==> Stands(db, ds, j + 1, k, n + 1, left - 1, root)
    ensures left == 1 ==> !DepOk(db, ds[k])
  {
    hide EncodeAll, EdgeOk;
    CursorEdge(ds, edges, j, k, n);
    assert edges[j] == ds[k].alts[n - 1];
    if left == 1 { NotOk(db, ds[k], edges[j]); }
  }

  lemma {:induction false} SatisfiedStep(db: Db, ds: seq<Dep>, edges: seq<Edge>, j: nat, k: nat, n: nat, left: nat,
      root: Option<Edge>)
    requires edges == EncodeAll(ds) && Stands(db, ds, j, k, n, left, root) && Here(ds, edges, j, k, n)
    requires edges[j].kind == PreDepends || edges[j].kind == Depends
    requires left > 0 && EdgeOk(db, edges[j])
    ensures Stands(db, ds, j + left, k + 1, 0, 0, root)
  {
    hide EncodeAll, EdgeOk, DepOk, Stands, WellFormed;
    InsideStep(db, ds, edges[j], j, k, n, left, root);
    IsOk(db, ds[k], n, edges[j]);
    DepStep(db, ds, edges, j, k, n, left, root, 0, root);
  }

  lemma {:induction false} UnsatisfiedStep(db: Db, ds: seq<Dep>, edges: seq<Edge>, j: nat, k: nat, n: nat, left: nat,
      root: Option<Edge>)
    requires edges == EncodeAll(ds) && Stands(db, ds, j, k, n, left, root) && Here(ds, edges, j, k, n)
    requires edges[j].kind == PreDepends || edges[j].kind == Depends
    requires left > 0 && !EdgeOk(db, edges[j])
    ensures left == 1 ==> !AllOk(db, ds)
    ensures left > 1 ==> Stands(db, ds, j + 1, k, n + 1, left - 1, root)
  {
    hide EncodeAll, EdgeOk, Stands, WellFormed;
    InsideStep(db, ds, edges[j], j, k, n, left, root);
    if ds[k].Group? { FailStep(db, ds, edges, j, k, n, left, root); }
    assert left == 1 ==> !DepOk(db, ds[k]);
  }

  lemma {:induction false} KindsAgree(db: Db, ds: seq<Dep>, edges: seq<Edge>, j: nat, k: nat, n: nat, left: nat,
      root: Option<Edge>)
    requires Stands(db, ds, j, k, n, left, root) && Here(ds, edges, j, k, n) && left > 0
    requires edges[j].kind == PreDepends || edges[j].kind == Depends
    ensures root.Some? ==> root.value.kind == OrKind(edges[j].kind)
  {
    hide Encode, EncodeAll, EdgeOk, DepOk, Stands;
    InsideStep(db, ds, edges[j], j, k, n, left, root);
  }

  // One alternative: the program stops, or goes on at edge j'.
  method TryEdge(db: Db, edges: seq<Edge>, j: nat, left: nat, root: Option<Edge>, ghost ds: seq<Dep>, ghost k: nat,
      ghost n: nat)
    returns (stop: bool, j': nat, left': nat, ghost k': nat, ghost n': nat)
    requires Valid(db) && edges == EncodeAll(ds) && Stands(db, ds, j, k, n, left, root)
    requires Here(ds, edges, j, k, n)
    requires edges[j].kind == PreDepends || edges[j].kind == Depends
    requires left > 0
    ensures stop ==> !AllOk(db, ds)
    ensures !stop ==> j' > j && Stands(db, ds, j', k', n', left', root)
  {
    hide Encode, EncodeAll, EdgeOk, AllOk, Stands, Valid;
    KindsAgree(db, ds, edges, j, k, n, left, root);
    stop, j', left', k', n' := true, j, left - 1, k, n;
    if root.Some? && root.value.kind != OrKind(edges[j].kind) {
      return;
    }
    var satisfied := EdgeSatisfied(db, edges[j]);
    if satisfied {
      SatisfiedStep(db, ds, edges, j, k, n, left, root);
      j', left' := j' + left', 0;
      k', n' := k + 1, 0;
    } else {
      UnsatisfiedStep(db, ds, edges, j, k, n, left, root);
      if left' == 0 {
        return;
      }
      n' := n + 1;
    }
    j' := j' + 1;
    stop := false;
  }

  // The loop over the edges of one package; false where the program stops with an error.
  method CheckEdges(db: Db, edges: seq<Edge>, ghost ds: seq<Dep>) returns (ok: bool)
    requires Valid(db) && edges == EncodeAll(ds) && AllWellFormed(ds)
    ensures ok <==> AllOk(db, ds)
  {
    hide Encode, EncodeAll, EdgeOk, AllOk, Stands, Valid, AllWellFormed, Here;
    var left: nat, root: Option<Edge>, j: nat := 0, None, 0;
    ghost var k: nat, n: nat := 0, 0;
    StartAt(db, ds);
    EdgeAt(db, ds, edges, j, k, n, left, root);
    while j < |edges|
      invariant Stands(db, ds, j, k, n, left, root)
      decreases |edges| - j
    {
      EdgeAt(db, ds, edges, j, k, n, left, root);
      if edges[j].kind == OrPreDepends || edges[j].kind == OrDepends {
        RootStep(db, ds, edges, j, k, n, left, root);
        left, root, j := edges[j].count, Some(edges[j]), j + 1;
        n := 1;
      } else {
        if left == 0 {
          AloneStep(db, ds, j, k, n, root);
          left, root := 1, None;
        }
        if edges[j].kind == PreDepends || edges[j].kind == Depends {
          var stop, j', left';
          stop, j', left', k, n := TryEdge(db, edges, j, left, root, ds, k, n);
          if stop {
            return false;
          }
          j, left := j', left';
        } else {
          MiscStep(db, ds, edges, j, k, n, left, root);
          k, n := k + 1, 0;
          j := j + 1;
        }
      }
    }
    EdgeAt(db, ds, edges, j, k, n, left, root);
    ok := true;
  }

  lemma {:induction false} AloneStep(db: Db, ds: seq<Dep>, j: nat, k: nat, n: nat, root: Option<Edge>)
    requires Stands(db, ds, j, k, n, 0, root)
    ensures Stands(db, ds, j, k, n, 1, None)
  {
  }

  lemma {:induction false} MiscStep(db: Db, ds: seq<Dep>, edges: seq<Edge>, j: nat, k: nat, n: nat, left: nat,
      root: Option<Edge>)
    requires edges == EncodeAll(ds) && Stands(db, ds, j, k, n, left, root)
    requires Here(ds, edges, j, k, n)
    requires edges[j].kind == Provides || edges[j].kind == OtherKind
    ensures Stands(db, ds, j + 1, k + 1, 0, left, root)
  {
    hide EncodeAll, EdgeOk;
    KindAt(ds[k], n);
    assert left == 0 || (left == 1 && root.None?);
    DepStep(db, ds, edges, j, k, n, left, root, left, root);
  }

  lemma {:induction false} IsOk(db: Db, d: Dep, n: nat, e: Edge)
    requires n < |Encode(d)| && e == Encode(d)[n] && EdgeOk(db, e) && (d.Group? ==> n > 0)
    ensures DepOk(db, d)
  {
    hide EdgeOk;
    if d.Group? { assert EdgeOk(db, d.alts[n - 1]); }
  }

  // The last alternative failed.
  lemma {:induction false} NotOk(db: Db, d: Dep, e: Edge)
    requires e == Encode(d)[|Encode(d)| - 1] && !EdgeOk(db, e) && !d.Misc?
    requires d.Group? ==> d.alts != [] && forall i :: 0 <= i < |d.alts| - 1 ==> !EdgeOk(db, d.alts[i])
    ensures !DepOk(db, d)
  {
    hide EdgeOk;
    if d.Group? { assert !EdgeOk(db, d.alts[|d.alts| - 1]); }
  }

  // The edges of every package encode its dependencies.
  ghost predicate Encoded(db: Db, deps: seq<seq<Dep>>)
  {
    && |deps| == |db.packages|
    && (forall i :: 0 <= i < |deps| ==> AllWellFormed(deps[i]))
    && (forall i :: 0 <= i < |deps| && db.packages[i].Some? ==> db.packages[i].value.edges == EncodeAll(deps[i]))
  }

  // A package that is wanted as "install" has all it depends on.
  ghost predicate PackageOk(db: Db, deps: seq<seq<Dep>>, i: nat)
    requires i < |db.packages| == |deps|
  {
    db.packages[i].Some? && HasWord(db, db.packages[i].value.name, 1, INSTALL) ==> AllOk(db, deps[i])
  }

  method CheckPackage(db: Db, i: nat, ghost deps: seq<seq<Dep>>) returns (ok: bool)
    requires Valid(db) && Encoded(db, deps) && i < |deps|
    ensures ok <==> PackageOk(db, deps, i)
  {
    hide Valid, EncodeAll, AllOk, AllWellFormed, HasWord;
    ok := true;
    if db.packages[i].Some? {
      var wanted := CheckWord(db, db.packages[i].value.name, 1, INSTALL);
      if wanted {
        ok := CheckEdges(db, db.packages[i].value.edges, deps[i]);
      }
    }
  }

  ghost predicate AllPackagesOk(db: Db, deps: seq<seq<Dep>>, n: nat)
    requires n <= |db.packages| == |deps|
  {
    forall i :: 0 <= i < n ==> PackageOk(db, deps, i)
  }

  // The dependency phase accepts exactly if every wanted package has, for each dependency, an
  // alternative that is satisfied.
  method CheckDependencies(db: Db, ghost deps: seq<seq<Dep>>) returns (ok: bool)
    requires Valid(db) && Encoded(db, deps)
    ensures ok <==> AllPackagesOk(db, deps, |deps|)
  {
    hide Valid, PackageOk, EncodeAll, AllWellFormed;
    for i := 0 to |db.packages|
      invariant AllPackagesOk(db, deps, i)
    {
      ok := CheckPackage(db, i, deps);
      if !ok {
        return;
      }
    }
    ok := true;
  }
}
