/** Well-formed dependency fields, however they are spaced, are read as what they say, and the
    dependency phase over packages with such fields accepts exactly if every group of
    alternatives is satisfied. */
module DependencyFormat {
  import opened Bits
  import opened Probing
  import opened NameTable
  import opened Dependencies
  import opened DependencyText

  // How many blanks stand before the name, behind it, behind the parenthesis, behind the
  // operator, behind the version, and behind the closing parenthesis.
  datatype Gaps = Gaps(lead: nat, name: nat, open: nat, op: nat, version: nat, tail: nat)

  // A name, with a version and its relation unless any version will do, as it is written.
  datatype Alternative = Alternative(name: Name, op: Op, version: Name, gaps: Gaps)

  ghost predicate AllIn(s: Name, p: byte -> bool)
  {
    forall i :: 0 <= i < |s| ==> p(s[i])
  }

  predicate IsPlain(c: byte) { c != COMMA && c != BAR }

  ghost predicate GoodAlternative(a: Alternative)
  {
    && a.name != [] && AllIn(a.name, InName) && AllIn(a.name, IsPlain) && a.op != Null
    && (a.op == Any ==> a.version == ANY)
    && a.version != [] && AllIn(a.version, InVersion) && AllIn(a.version, IsPlain)
    && (a.gaps.op == 0 ==> !IsOperator(a.version[0]))
  }

  ghost predicate GoodGroup(g: seq<Alternative>)
  {
    g != [] && forall i :: 0 <= i < |g| ==> GoodAlternative(g[i])
  }

  ghost predicate GoodLine(gs: seq<seq<Alternative>>)
  {
    gs != [] && forall i :: 0 <= i < |gs| ==> GoodGroup(gs[i])
  }

  function OpText(op: Op): (s: Name)
  {
    match op
    case Equal => [61]
    case Less => [60, 60]
    case LessEqual => [60, 61]
    case More => [62, 62]
    case MoreEqual => [62, 61]
    case _ => []
  }

  lemma {:induction false} OperatorTexts()
    ensures OpText(Equal) == Text("=") && OpText(Less) == Text("<<") && OpText(LessEqual) == Text("<=")
    ensures OpText(More) == Text(">>") && OpText(MoreEqual) == Text(">=")
  {
  }

  function Blanks(n: nat): (s: Name)
    ensures |s| == n && forall i :: 0 <= i < n ==> s[i] == SPACE
  {
    seq(n, _ => SPACE)
  }

  // What follows the operator: the version and the closing parenthesis.
  function VersionTail(a: Alternative): Name
  {
    a.version + (Blanks(a.gaps.version) + ([CLOSE] + Blanks(a.gaps.tail)))
  }

  // "(op version)"
  function VersionText(a: Alternative): (t: Name)
    ensures t != [] && t[0] == OPEN
  {
    [OPEN] + (Blanks(a.gaps.open) + (OpText(a.op) + (Blanks(a.gaps.op) + VersionTail(a))))
  }

  // The alternative from its name on.
  function AltText(a: Alternative): Name
  {
    a.name + (Blanks(a.gaps.name) + if a.op == Any then [] else VersionText(a))
  }

  // The alternatives with bars between them, behind some blanks.
  function GroupText(g: seq<Alternative>, lead: nat): Name
    requires g != []
  {
    var piece := Blanks(lead) + AltText(g[0]);
    if |g| == 1 then piece else piece + ([BAR] + GroupText(g[1..], g[1].gaps.lead))
  }

  function GroupPieces(g: seq<Alternative>, lead: nat): (r: seq<Name>)
    ensures |r| == |g|
  {
    if g == [] then []
    else [Blanks(lead) + AltText(g[0])] + GroupPieces(g[1..], if |g| > 1 then g[1].gaps.lead else 0)
  }

  // The groups with commas between them.
  function LineText(gs: seq<seq<Alternative>>): Name
    requires GoodLine(gs)
  {
    assert GoodGroup(gs[0]);
    var piece := GroupText(gs[0], gs[0][0].gaps.lead);
    if |gs| == 1 then piece else piece + ([COMMA] + LineText(gs[1..]))
  }

  function LinePieces(gs: seq<seq<Alternative>>): (r: seq<Name>)
    requires forall i :: 0 <= i < |gs| ==> GoodGroup(gs[i])
    ensures |r| == |gs|
  {
    if gs == [] then []
    else assert GoodGroup(gs[0]); [GroupText(gs[0], gs[0][0].gaps.lead)] + LinePieces(gs[1..])
  }

  function AltEdge(a: Alternative, kind: Kind): Edge
  {
    Edge(a.op, kind, a.name, a.version, 0)
  }

  function GroupEdges(g: seq<Alternative>, kind: Kind): (es: seq<Edge>)
    ensures |es| == |g|
    ensures forall i :: 0 <= i < |g| ==> es[i] == AltEdge(g[i], kind)
  {
    seq(|g|, i requires 0 <= i < |g| => AltEdge(g[i], kind))
  }

  function GroupDeps(g: seq<Alternative>, kind: Kind): seq<Dep>
    requires g != []
  {
    if IsDependency(kind) && |g| > 1 then [Group(OrEdge(GroupText(g, 0), kind, |g|), GroupEdges(g, kind))]
    else Singles(GroupEdges(g, kind))
  }

  function EachDeps(gs: seq<seq<Alternative>>, kind: Kind): (r: seq<seq<Dep>>)
    requires forall i :: 0 <= i < |gs| ==> gs[i] != []
    ensures |r| == |gs|
  {
    seq(|gs|, i requires 0 <= i < |gs| => GroupDeps(gs[i], kind))
  }

  function LineDeps(gs: seq<seq<Alternative>>, kind: Kind): seq<Dep>
    requires forall i :: 0 <= i < |gs| ==> gs[i] != []
  {
    Flat(EachDeps(gs, kind))
  }

  lemma {:induction false} SpanExact(a: Name, b: Name, p: byte -> bool)
    requires AllIn(a, p) && (b == [] || !p(b[0]))
    ensures Span(a + b, p) == |a| && (a + b)[..|a|] == a && Rest(a + b, p) == b
  {
    SpanOver(a, b, p);
  }

  lemma {:induction false} UntilExact(a: Name, b: Name, d: byte)
    requires (forall i :: 0 <= i < |a| ==> a[i] != d) && (b == [] || b[0] == d)
    ensures Until(a + b, d) == |a|
  {
    if a == [] {
      assert a + b == b;
    } else {
      UntilExact(a[1..], b, d);
      assert (a + b)[1..] == a[1..] + b;
    }
  }

  lemma {:induction false} TokensLast(a: Name, d: byte)
    requires a != [] && forall i :: 0 <= i < |a| ==> a[i] != d
    ensures Tokens(a, d) == [a]
  {
    UntilExact(a, [], d);
    assert a + [] == a;
    assert a[0..] == a && a[..|a|] == a && a[|a|..] == [];
  }

  lemma {:induction false} TokensCons(a: Name, rest: Name, d: byte)
    requires a != [] && forall i :: 0 <= i < |a| ==> a[i] != d
    ensures Tokens(a + ([d] + rest), d) == [a] + Tokens(rest, d)
  {
    var s := a + ([d] + rest);
    UntilExact(a, [d] + rest, d);
    TokensSkip(rest, d);
    assert s[0] != d;
    assert s[0..] == s && s[..|a|] == a && s[|a|..] == [d] + rest;
  }

  lemma {:induction false} TwoBytes(t: Name, b0: byte, b1: byte)
    requires 1 <= |t| <= 2
    ensures Starts(t, [b0, b1]) <==> t[0] == b0 && (|t| == 2 ==> t[1] == b1)
  {
    if t[0] == b0 && (|t| == 2 ==> t[1] == b1) { assert t == [b0, b1][..|t|]; }
  }

  lemma {:induction false} OperatorBack(op: Op)
    requires op != Null && op != Any
    ensures Operator(OpText(op)) == Ok(op) && AllIn(OpText(op), IsOperator) && OpText(op) != []
  {
    var t: Name := OpText(op);
    assert Starts(t, [61]) <==> op == Equal by { if |t| == 1 { assert t[0] == 61; } }
    assert Starts(t, [60, 60]) <==> op == Less by { TwoBytes(t, 60, 60); }
    assert Starts(t, [60, 61]) <==> op == LessEqual by { TwoBytes(t, 60, 61); }
    assert Starts(t, [62, 62]) <==> op == More by { TwoBytes(t, 62, 62); }
    assert Starts(t, [62, 61]) <==> op == MoreEqual by { TwoBytes(t, 62, 61); }
  }

  // What follows the operator does not go on with an operator or, behind its blanks, with one
  // more blank, and the version ends where it should.
  lemma {:induction false} TailBack(a: Alternative)
    requires GoodAlternative(a)
    ensures var b := VersionTail(a); b != [] && b[0] != SPACE && b[..Span(b, InVersion)] == a.version
    ensures var b := Blanks(a.gaps.op) + VersionTail(a); b != [] && !IsOperator(b[0])
  {
    var rest := Blanks(a.gaps.version) + ([CLOSE] + Blanks(a.gaps.tail));
    assert !InVersion(rest[0]);
    SpanExact(a.version, rest, InVersion);
    assert InVersion(a.version[0]);
  }

  // The version behind the parenthesis.
  lemma {:induction false} VersionBack(a: Alternative)
    requires GoodAlternative(a) && a.op != Any
    ensures var v := VersionText(a); var v1 := Rest(v, IsBlank); var v2 := Rest(Rest(v1, IsOperator), IsSpace);
            v != [] && Operator(v1[..Span(v1, IsOperator)]) == Ok(a.op) && v2[..Span(v2, InVersion)] == a.version
  {
    hide Operator, OpText, VersionTail, Span;
    OperatorBack(a.op);
    TailBack(a);
    var b1 := Blanks(a.gaps.op) + VersionTail(a);
    var b0 := OpText(a.op) + b1;
    var front := [OPEN] + Blanks(a.gaps.open);
    assert VersionText(a) == front + b0;
    assert IsOperator(OpText(a.op)[0]);
    assert b0[0] == OpText(a.op)[0];
    SpanExact(front, b0, IsBlank);
    SpanExact(OpText(a.op), b1, IsOperator);
    SpanExact(Blanks(a.gaps.op), VersionTail(a), IsSpace);
  }

  // The parts of an alternative that starts with its name.
  lemma {:induction false} AltParts(a: Alternative)
    requires GoodAlternative(a)
    ensures var f := AltText(a);
            && f != [] && !IsSpace(f[0]) && f[..Span(f, InName)] == a.name
            && Rest(f, NotOpen) == if a.op == Any then [] else VersionText(a)
  {
    hide Span, VersionText;
    var version := if a.op == Any then [] else VersionText(a);
    var tail := Blanks(a.gaps.name) + version;
    assert InName(a.name[0]);
    assert tail == [] || !InName(tail[0]);
    SpanExact(a.name, tail, InName);
    NameNotOpen(a.name, a.gaps.name);
    assert a.name + tail == (a.name + Blanks(a.gaps.name)) + version;
    SpanExact(a.name + Blanks(a.gaps.name), version, NotOpen);
  }

  lemma {:induction false} NameNotOpen(name: Name, n: nat)
    requires AllIn(name, InName)
    ensures AllIn(name + Blanks(n), NotOpen)
  {
    forall i | 0 <= i < |name + Blanks(n)| ensures NotOpen((name + Blanks(n))[i]) {
      if i < |name| { assert InName(name[i]); }
    }
  }

  // An alternative is read back, whatever blanks stand before it.
  lemma {:induction false} AltBack(a: Alternative, lead: nat, kind: Kind)
    requires GoodAlternative(a)
    ensures ParseAlternative(Blanks(lead) + AltText(a), kind) == Ok(AltEdge(a, kind))
  {
    hide Span, AltText, VersionText, Operator;
    AltParts(a);
    SpanExact(Blanks(lead), AltText(a), IsSpace);
    if a.op != Any { VersionBack(a); }
  }

  lemma {:induction false} PiecePlain(a: Alternative, lead: nat, s: Name)
    requires GoodAlternative(a) && s == Blanks(lead) + AltText(a)
    ensures s != [] && AllIn(s, IsPlain)
  {
    assert AllIn(OpText(a.op), IsPlain);
    assert AllIn(VersionTail(a), IsPlain);
    assert AllIn(VersionText(a), IsPlain);
    assert AllIn(AltText(a), IsPlain);
  }

  lemma {:induction false} GroupTokens(g: seq<Alternative>, lead: nat)
    requires GoodGroup(g)
    ensures Tokens(GroupText(g, lead), BAR) == GroupPieces(g, lead)
  {
    hide AltText, Tokens;
    assert GoodAlternative(g[0]);
    var piece := Blanks(lead) + AltText(g[0]);
    PiecePlain(g[0], lead, piece);
    NotDelimiter(piece, BAR);
    if |g| == 1 {
      TokensLast(piece, BAR);
      assert GroupPieces(g[1..], 0) == [];
    } else {
      GroupTokens(g[1..], g[1].gaps.lead);
      TokensCons(piece, GroupText(g[1..], g[1].gaps.lead), BAR);
    }
  }

  lemma {:induction false} NotDelimiter(s: Name, d: byte)
    requires AllIn(s, IsPlain) && (d == BAR || d == COMMA)
    ensures forall i :: 0 <= i < |s| ==> s[i] != d
  {
    forall i | 0 <= i < |s| ensures s[i] != d { assert IsPlain(s[i]); }
  }

  lemma {:induction false} GroupNoComma(g: seq<Alternative>, lead: nat)
    requires GoodGroup(g)
    ensures GroupText(g, lead) != [] && forall i :: 0 <= i < |GroupText(g, lead)| ==> GroupText(g, lead)[i] != COMMA
  {
    hide AltText;
    assert GoodAlternative(g[0]);
    var piece := Blanks(lead) + AltText(g[0]);
    PiecePlain(g[0], lead, piece);
    NotDelimiter(piece, COMMA);
    if |g| > 1 { GroupNoComma(g[1..], g[1].gaps.lead); }
  }

  lemma {:induction false} PiecesBack(g: seq<Alternative>, lead: nat, kind: Kind, i: nat)
    requires GoodGroup(g) && i < |g|
    ensures ParseAlternative(GroupPieces(g, lead)[i], kind) == Ok(AltEdge(g[i], kind))
    decreases i
  {
    hide ParseAlternative, AltText;
    if i == 0 {
      AltBack(g[0], lead, kind);
    } else {
      PiecesBack(g[1..], if |g| > 1 then g[1].gaps.lead else 0, kind, i - 1);
    }
  }

  lemma {:induction false} ListIs<T>(texts: seq<Name>, f: Name -> Result<seq<T>>, xs: seq<T>)
    requires |texts| == |xs| && forall i :: 0 <= i < |xs| ==> f(texts[i]) == Ok([xs[i]])
    ensures ParseList(texts, f) == Ok(xs)
  {
    if texts != [] {
      var n := |texts| - 1;
      ListIs(texts[..n], f, xs[..n]);
      assert xs == xs[..n] + [xs[n]];
    }
  }

  lemma {:induction false} AlternativesBack(g: seq<Alternative>, lead: nat, kind: Kind)
    requires GoodGroup(g)
    ensures ParseAlternatives(GroupPieces(g, lead), kind) == Ok(GroupEdges(g, kind))
  {
    hide ParseAlternative, GroupPieces, ParseList;
    var texts, es, f := GroupPieces(g, lead), GroupEdges(g, kind), AlternativeReader(kind);
    forall i | 0 <= i < |es| ensures f(texts[i]) == Ok([es[i]]) { PiecesBack(g, lead, kind, i); }
    ListIs(texts, f, es);
  }

  // Without the blanks before it, the text of a group starts with a name; it is its own first
  // piece exactly if there is no other.
  lemma {:induction false} GroupStart(g: seq<Alternative>)
    requires GoodGroup(g)
    ensures GroupText(g, 0) != [] && !IsSpace(GroupText(g, 0)[0])
    ensures GroupPieces(g, 0)[0] == GroupText(g, 0) <==> |g| == 1
  {
    hide AltText, Span;
    var a := g[0];
    assert GoodAlternative(a);
    AltParts(a);
    var piece := Blanks(0) + AltText(a);
    assert piece[0] == AltText(a)[0];
    if |g| > 1 { assert |GroupText(g, 0)| == |piece| + (1 + |GroupText(g[1..], g[1].gaps.lead)|); }
  }

  lemma {:induction false} GroupLead(g: seq<Alternative>, lead: nat)
    requires GoodGroup(g)
    ensures GroupText(g, lead) == Blanks(lead) + GroupText(g, 0)
  {
    hide AltText;
    assert Blanks(0) + AltText(g[0]) == AltText(g[0]);
    if |g| > 1 { Assoc(Blanks(lead), AltText(g[0]), [BAR] + GroupText(g[1..], g[1].gaps.lead)); }
  }

  lemma {:induction false} FieldIs(text: Name, kind: Kind, field: Name, texts: seq<Name>, es: seq<Edge>, grouped: bool)
    requires field == Rest(text, IsSpace) && texts == Tokens(field, BAR) && texts != []
    requires ParseAlternatives(texts, kind) == Ok(es) && (grouped <==> IsDependency(kind) && field != texts[0])
    ensures ParseField(text, kind) == Ok(FieldDeps(field, kind, texts, es, grouped))
  {
    hide Rest, Tokens, ParseAlternatives;
  }

  lemma {:induction false} FieldBack(g: seq<Alternative>, lead: nat, kind: Kind)
    requires GoodGroup(g)
    ensures ParseField(GroupText(g, lead), kind) == Ok(GroupDeps(g, kind))
  {
    hide GroupText, GroupPieces, Tokens, ParseAlternatives, Span, ParseField, GroupEdges;
    GroupLead(g, lead);
    GroupStart(g);
    SpanExact(Blanks(lead), GroupText(g, 0), IsSpace);
    GroupTokens(g, 0);
    AlternativesBack(g, 0, kind);
    FieldIs(GroupText(g, lead), kind, GroupText(g, 0), GroupPieces(g, 0), GroupEdges(g, kind), IsDependency(kind)
      && |g| > 1);
  }

  lemma {:induction false} LineTokens(gs: seq<seq<Alternative>>)
    requires GoodLine(gs)
    ensures Tokens(LineText(gs), COMMA) == LinePieces(gs)
  {
    hide GroupText, Tokens;
    assert GoodGroup(gs[0]);
    var lead := gs[0][0].gaps.lead;
    GroupNoComma(gs[0], lead);
    if |gs| == 1 {
      TokensLast(GroupText(gs[0], lead), COMMA);
      assert LinePieces(gs[1..]) == [];
    } else {
      LineTokens(gs[1..]);
      TokensCons(GroupText(gs[0], lead), LineText(gs[1..]), COMMA);
    }
  }

  lemma {:induction false} LinePieceAt(gs: seq<seq<Alternative>>, i: nat)
    requires GoodLine(gs) && i < |gs|
    ensures GoodGroup(gs[i]) && LinePieces(gs)[i] == GroupText(gs[i], gs[i][0].gaps.lead)
    decreases i
  {
    hide GroupText;
    assert GoodGroup(gs[i]);
    if i > 0 { LinePieceAt(gs[1..], i - 1); }
  }

  lemma {:induction false} ListFlat<T>(texts: seq<Name>, f: Name -> Result<seq<T>>, xss: seq<seq<T>>)
    requires |texts| == |xss| && forall i :: 0 <= i < |xss| ==> f(texts[i]) == Ok(xss[i])
    ensures ParseList(texts, f) == Ok(Flat(xss))
  {
    if texts != [] { ListFlat(texts[..|texts| - 1], f, xss[..|texts| - 1]); }
  }

  // Reading a line gives back the groups it was written from.
  lemma {:induction false} LineBack(gs: seq<seq<Alternative>>, kind: Kind)
    requires GoodLine(gs)
    ensures ParseLine(LineText(gs), kind) == Ok(LineDeps(gs, kind))
  {
    hide LineText, Tokens, GroupText, GroupDeps, ParseField, ParseList, LinePieces;
    LineTokens(gs);
    var texts, f, dss := LinePieces(gs), FieldReader(kind), EachDeps(gs, kind);
    forall i | 0 <= i < |dss| ensures f(texts[i]) == Ok(dss[i]) {
      LinePieceAt(gs, i);
      FieldBack(gs[i], gs[i][0].gaps.lead, kind);
    }
    ListFlat(texts, f, dss);
  }

  // A field of a control file that lists packages.
  datatype Field = Field(kind: Kind, groups: seq<seq<Alternative>>)

  ghost predicate GoodField(f: Field)
  {
    GoodLine(f.groups) && f.kind != OrPreDepends && f.kind != OrDepends && GroupsNonEmpty(f.groups)
  }

  ghost predicate GroupsNonEmpty(gs: seq<seq<Alternative>>)
  {
    forall i :: 0 <= i < |gs| ==> gs[i] != []
  }

  ghost predicate GoodControl(fs: seq<Field>)
  {
    forall i :: 0 <= i < |fs| ==> GoodField(fs[i])
  }

  ghost function FieldsDeps(fs: seq<Field>): (r: seq<seq<Dep>>)
    requires GoodControl(fs)
    ensures |r| == |fs|
  {
    seq(|fs|, i requires 0 <= i < |fs| => assert GoodField(fs[i]); LineDeps(fs[i].groups, fs[i].kind))
  }

  ghost function ControlDeps(fs: seq<Field>): seq<Dep>
    requires GoodControl(fs)
  {
    Flat(FieldsDeps(fs))
  }

  // An alternative of the group is satisfied.
  ghost predicate GroupOk(db: Db, g: seq<Alternative>, kind: Kind)
  {
    exists j :: 0 <= j < |g| && EdgeOk(db, AltEdge(g[j], kind))
  }

  ghost predicate FieldOk(db: Db, f: Field)
  {
    IsDependency(f.kind) ==> forall i :: 0 <= i < |f.groups| ==> GroupOk(db, f.groups[i], f.kind)
  }

  ghost predicate ControlOk(db: Db, fs: seq<Field>)
  {
    forall i :: 0 <= i < |fs| ==> FieldOk(db, fs[i])
  }

  lemma {:induction false} FlatAll(xss: seq<seq<Dep>>, p: Dep -> bool)
    ensures All(Flat(xss), p) <==> AllEach(xss, p)
  {
    if xss != [] {
      var init, last := xss[..|xss| - 1], xss[|xss| - 1];
      FlatAll(init, p);
      AllConcat(Flat(init), last, p);
      if AllEach(xss, p) {
        forall i | 0 <= i < |init| ensures All(init[i], p) { assert All(xss[i], p); }
        assert All(xss[|init|], p);
      }
      if AllEach(init, p) && All(last, p) {
        forall i | 0 <= i < |xss| ensures All(xss[i], p) { if i < |init| { assert All(init[i], p); } }
      }
    }
  }

  ghost predicate AllEach(xss: seq<seq<Dep>>, p: Dep -> bool)
  {
    forall i :: 0 <= i < |xss| ==> All(xss[i], p)
  }

  ghost predicate All(ds: seq<Dep>, p: Dep -> bool)
  {
    forall k :: 0 <= k < |ds| ==> p(ds[k])
  }

  lemma {:induction false} AllConcat(a: seq<Dep>, b: seq<Dep>, p: Dep -> bool)
    ensures All(a + b, p) <==> All(a, p) && All(b, p)
  {
    if All(a + b, p) {
      forall k | 0 <= k < |a| ensures p(a[k]) { assert p((a + b)[k]); }
      forall k | 0 <= k < |b| ensures p(b[k]) { assert p((a + b)[|a| + k]); }
    }
  }

  lemma {:induction false} SinglesOk(db: Db, es: seq<Edge>, kind: Kind)
    requires (forall i :: 0 <= i < |es| ==> es[i].kind == kind) && kind != OrPreDepends && kind != OrDepends
    ensures AllWellFormed(Singles(es))
    ensures AllOk(db, Singles(es)) <==> (IsDependency(kind) ==> forall i :: 0 <= i < |es| ==> EdgeOk(db, es[i]))
  {
    hide EdgeOk;
    var ds := Singles(es);
    assert forall i :: 0 <= i < |es| ==> ds[i] == if IsDependency(kind) then One(es[i]) else Misc(es[i]);
    if AllOk(db, ds) && IsDependency(kind) {
      forall i | 0 <= i < |es| ensures EdgeOk(db, es[i]) { assert DepOk(db, ds[i]); }
    }
  }

  lemma {:induction false} OneGroupOk(db: Db, root: Edge, es: seq<Edge>, kind: Kind)
    requires root.count == |es| >= 1 && IsDependency(kind) && root.kind == OrKind(kind)
             && forall i :: 0 <= i < |es| ==> es[i].kind == kind
    ensures AllWellFormed([Group(root, es)])
    ensures AllOk(db, [Group(root, es)]) <==> exists i :: 0 <= i < |es| && EdgeOk(db, es[i])
  {
    hide EdgeOk;
    forall k | 0 <= k < |es| ensures AltOf(root, es[k]) { }
    assert [Group(root, es)][0] == Group(root, es);
    if AllOk(db, [Group(root, es)]) { assert DepOk(db, [Group(root, es)][0]); }
  }

  lemma {:induction false} GroupIsOk(db: Db, g: seq<Alternative>, kind: Kind)
    requires g != [] && kind != OrPreDepends && kind != OrDepends
    ensures AllWellFormed(GroupDeps(g, kind))
    ensures AllOk(db, GroupDeps(g, kind)) <==> (IsDependency(kind) ==> GroupOk(db, g, kind))
  {
    hide EdgeOk, GroupText, AllOk, AllWellFormed, Singles;
    var es := GroupEdges(g, kind);
    if IsDependency(kind) && |g| > 1 {
      OneGroupOk(db, OrEdge(GroupText(g, 0), kind, |g|), es, kind);
    } else {
      SinglesOk(db, es, kind);
      assert es[0] == AltEdge(g[0], kind);
      assert |g| == 1 ==> (GroupOk(db, g, kind) <==> EdgeOk(db, AltEdge(g[0], kind)));
    }
  }

  lemma {:induction false} LineIsOk(db: Db, f: Field)
    requires GoodField(f)
    ensures AllWellFormed(LineDeps(f.groups, f.kind))
    ensures AllOk(db, LineDeps(f.groups, f.kind)) <==> FieldOk(db, f)
  {
    var dss := EachDeps(f.groups, f.kind);
    forall i | 0 <= i < |dss|
      ensures AllWellFormed(dss[i])
              && (AllOk(db, dss[i]) <==> (IsDependency(f.kind) ==> GroupOk(db, f.groups[i], f.kind))) {
      GroupIsOk(db, f.groups[i], f.kind);
    }
    FlatOk(db, dss);
    if FieldOk(db, f) {
      forall i | 0 <= i < |dss| ensures AllOk(db, dss[i]) { }
    }
  }

  // The same for all of a list of lists.
  lemma {:induction false} FlatOk(db: Db, dss: seq<seq<Dep>>)
    ensures (forall i :: 0 <= i < |dss| ==> AllWellFormed(dss[i])) ==> AllWellFormed(Flat(dss))
    ensures AllOk(db, Flat(dss)) <==> forall i :: 0 <= i < |dss| ==> AllOk(db, dss[i])
  {
    ghost var w, p := (d: Dep) => WellFormed(d), (d: Dep) => DepOk(db, d);
    FlatAll(dss, w);
    FlatAll(dss, p);
    assert AllOk(db, Flat(dss)) <==> All(Flat(dss), p);
    forall i | 0 <= i < |dss|
      ensures (AllOk(db, dss[i]) <==> All(dss[i], p)) && (AllWellFormed(dss[i]) <==> All(dss[i], w)) { }
  }

  lemma {:induction false} ControlIsOk(db: Db, fs: seq<Field>)
    requires GoodControl(fs)
    ensures AllWellFormed(ControlDeps(fs)) && (AllOk(db, ControlDeps(fs)) <==> ControlOk(db, fs))
  {
    var dss := FieldsDeps(fs);
    forall i | 0 <= i < |dss| ensures AllWellFormed(dss[i]) && (AllOk(db, dss[i]) <==> FieldOk(db, fs[i])) {
      assert GoodField(fs[i]);
      LineIsOk(db, fs[i]);
    }
    FlatOk(db, dss);
    if ControlOk(db, fs) {
      forall i | 0 <= i < |dss| ensures AllOk(db, dss[i]) { assert FieldOk(db, fs[i]); }
    }
  }

  // Reading the fields of a control file, each as it is written.
  method ReadControl(fs: seq<Field>) returns (node: Node, fault: Option<Fault>)
    requires GoodControl(fs)
    ensures fault.None? && fresh(node) && node.edges == EncodeAll(ControlDeps(fs))
  {
    node := new Node();
    fault := None;
    ghost var dss := FieldsDeps(fs);
    for i := 0 to |fs|
      invariant fault.None? && node.edges == EncodeAll(Flat(dss[..i]))
    {
      assert GoodField(fs[i]);
      LineBack(fs[i].groups, fs[i].kind);
      fault := node.AddSplitDependencies(LineText(fs[i].groups), fs[i].kind);
      EncodeConcat(Flat(dss[..i]), dss[i]);
      assert dss[..i + 1][..i] == dss[..i];
    }
    assert dss[..|fs|] == dss;
  }

  // Every package was read from a control file whose fields are well-formed.
  ghost predicate ReadFrom(db: Db, controls: seq<seq<Field>>)
  {
    && |controls| == |db.packages| && (forall i :: 0 <= i < |controls| ==> GoodControl(controls[i]))
    && forall i :: 0 <= i < |controls| && db.packages[i].Some?
                   ==> db.packages[i].value.edges == EncodeAll(ControlDeps(controls[i]))
  }

  // A package that is wanted as "install" has, for each group of its dependency fields, an
  // alternative that is satisfied.
  ghost predicate WantOk(db: Db, i: nat, fs: seq<Field>)
    requires i < |db.packages|
  {
    db.packages[i].Some? && HasWord(db, db.packages[i].value.name, 1, INSTALL) ==> ControlOk(db, fs)
  }

  // The dependency phase accepts exactly if all wanted packages have what they depend on.
  method CheckControls(db: Db, ghost controls: seq<seq<Field>>) returns (ok: bool)
    requires Valid(db) && ReadFrom(db, controls)
    ensures ok <==> forall i :: 0 <= i < |controls| ==> WantOk(db, i, controls[i])
  {
    ghost var deps := seq(|controls|, i requires 0 <= i < |controls| => ControlDeps(controls[i]));
    forall i | 0 <= i < |controls|
      ensures AllWellFormed(deps[i]) && (PackageOk(db, deps, i) <==> WantOk(db, i, controls[i])) {
      ControlIsOk(db, controls[i]);
    }
    ok := CheckDependencies(db, deps);
  }
}
