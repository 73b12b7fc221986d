/** Reading a dependency field of a control file into edges (add_split_dependencies), and the
    dependency phase over edges read this way. */
module DependencyText {
  import opened Bits
  import opened Probing
  import opened NameTable
  import opened Dependencies

  const SPACE: byte := 32
  const OPEN: byte := 40
  const CLOSE: byte := 41
  const COMMA: byte := 44
  const BAR: byte := 124
  const ANY: Name := [65, 78, 89]

  predicate NotOpen(c: byte) { c != OPEN }
  predicate IsBlank(c: byte) { c == SPACE || c == OPEN }
  predicate InName(c: byte) { c != SPACE && c != OPEN }
  predicate InVersion(c: byte) { c != SPACE && c != CLOSE }
  predicate IsOperator(c: byte) { 60 <= c <= 62 }

  function Rest(s: Name, p: byte -> bool): (r: Name)
    ensures |r| <= |s|
  {
    s[Span(s, p)..]
  }

  // How many delimiters the text starts with.
  function Lead(s: Name, d: byte): (n: nat)
    ensures n <= |s| && (n < |s| ==> s[n] != d)
  {
    if s != [] && s[0] == d then 1 + Lead(s[1..], d) else 0
  }

  // The length of the first piece.
  function Until(s: Name, d: byte): (n: nat)
    ensures n <= |s| && (s != [] && s[0] != d ==> n > 0)
  {
    if s != [] && s[0] != d then 1 + Until(s[1..], d) else 0
  }

  // strtok: the pieces between the delimiters, empty ones left out.
  function Tokens(s: Name, d: byte): seq<Name>
    decreases |s|
  {
    var t := s[Lead(s, d)..];
    if t == [] then [] else [t[..Until(t, d)]] + Tokens(t[Until(t, d)..], d)
  }

  // What stops the reading of a field. An operator that is not one makes the program exit; a
  // version without any leaves the operator of its edge unset, and an empty field is read
  // through a null pointer.
  datatype Fault = IllegalOperator | UnsetOperator | EmptyField

  datatype Result<T> = Ok(value: T) | Err(fault: Fault)

  // The operator in front of a version.
  function Operator(o: Name): Result<Op>
  {
    if o == [] then Err(UnsetOperator)
    else if Starts(o, [61]) then Ok(Equal)
    else if Starts(o, [60, 60]) then Ok(Less)
    else if Starts(o, [60, 61]) then Ok(LessEqual)
    else if Starts(o, [62, 62]) then Ok(More)
    else if Starts(o, [62, 61]) then Ok(MoreEqual)
    else Err(IllegalOperator)
  }

  // Which operator characters are which operator; a single "<" or ">" is the strict one.
  lemma {:induction false} OperatorTable(o: Name)
    ensures Operator(o) == Ok(Equal) <==> o == Text("=")
    ensures Operator(o) == Ok(Less) <==> o == Text("<") || o == Text("<<")
    ensures Operator(o) == Ok(LessEqual) <==> o == Text("<=")
    ensures Operator(o) == Ok(More) <==> o == Text(">") || o == Text(">>")
    ensures Operator(o) == Ok(MoreEqual) <==> o == Text(">=")
    ensures Operator(o) == Err(UnsetOperator) <==> o == Text("")
  {
    OneOrTwo(o, 61, 61);
    OneOrTwo(o, 60, 60);
    OneOrTwo(o, 60, 61);
    OneOrTwo(o, 62, 62);
    OneOrTwo(o, 62, 61);
    assert Starts(o, [61]) <==> o == [] || o == [61] by { if |o| == 1 { assert o[0] == 61 <==> o == [61]; } }
    assert Text("=") == [61] && Text("<") == [60] && Text("<<") == [60, 60] && Text("<=") == [60, 61];
    assert Text(">") == [62] && Text(">>") == [62, 62] && Text(">=") == [62, 61] && Text("") == [];
  }

  lemma {:induction false} OneOrTwo(o: Name, a: byte, b: byte)
    ensures Starts(o, [a, b]) <==> o == [] || o == [a] || o == [a, b]
  {
    if |o| == 1 { assert [a, b][..1] == [a]; }
    if |o| == 2 { assert [a, b][..2] == [a, b]; }
  }

  // The characters that delimit the parts of a dependency field.
  lemma {:induction false} Delimiters()
    ensures [SPACE] == Text(" ") && [OPEN] == Text("(") && [CLOSE] == Text(")") && [COMMA] == Text(",")
            && [BAR] == Text("|")
    ensures ANY == Text("ANY")
  {
  }

  // strncmp over the length of o.
  predicate Starts(o: Name, literal: Name)
  {
    |o| <= |literal| && o == literal[..|o|]
  }

  // One alternative.
  function ParseAlternative(text: Name, kind: Kind): Result<Edge>
  {
    var f := Rest(text, IsSpace);
    var name := f[..Span(f, InName)];
    var v := Rest(f, NotOpen);
    if v == [] then Ok(Edge(Any, kind, name, ANY, 0))
    else
      var v1 := Rest(v, IsBlank);
      var op := Operator(v1[..Span(v1, IsOperator)]);
      if op.Err? then Err(op.fault)
      else
        var v2 := Rest(Rest(v1, IsOperator), IsSpace);
        Ok(Edge(op.value, kind, name, v2[..Span(v2, InVersion)], 0))
  }

  // A list of texts, each read on its own, up to the first fault.
  function ParseList<T>(texts: seq<Name>, f: Name -> Result<seq<T>>): Result<seq<T>>
  {
    if texts == [] then Ok([])
    else
      var init, x := ParseList(texts[..|texts| - 1], f), f(texts[|texts| - 1]);
      if init.Err? then init else if x.Err? then x else Ok(init.value + x.value)
  }

  function AlternativeReader(kind: Kind): Name -> Result<seq<Edge>>
  {
    t => var e := ParseAlternative(t, kind); if e.Ok? then Ok([e.value]) else Err(e.fault)
  }

  function ParseAlternatives(texts: seq<Name>, kind: Kind): Result<seq<Edge>>
  {
    ParseList(texts, AlternativeReader(kind))
  }

  predicate IsDependency(kind: Kind) { kind == PreDepends || kind == Depends }

  // The edges by themselves.
  function Singles(es: seq<Edge>): (ds: seq<Dep>)
    ensures |ds| == |es|
  {
    seq(|es|, i requires 0 <= i < |es| => if IsDependency(es[i].kind) then One(es[i]) else Misc(es[i]))
  }

  function OrEdge(field: Name, kind: Kind, count: nat): Edge
  {
    Edge(Null, OrKind(kind), field, [], count)
  }

  // The dependencies of a field: a group behind an OR edge, or each edge for itself.
  function FieldDeps(field: Name, kind: Kind, texts: seq<Name>, es: seq<Edge>, grouped: bool): seq<Dep>
  {
    if grouped then [Group(OrEdge(field, kind, |texts|), es)] else Singles(es)
  }

  // One field between commas.
  function ParseField(text: Name, kind: Kind): Result<seq<Dep>>
  {
    var field := Rest(text, IsSpace);
    var texts := Tokens(field, BAR);
    if texts == [] then Err(EmptyField)
    else
      var es := ParseAlternatives(texts, kind);
      if es.Err? then Err(es.fault)
      else Ok(FieldDeps(field, kind, texts, es.value, IsDependency(kind) && field != texts[0]))
  }

  function FieldReader(kind: Kind): Name -> Result<seq<Dep>>
  {
    t => ParseField(t, kind)
  }

  function ParseLine(line: Name, kind: Kind): Result<seq<Dep>>
  {
    var texts := Tokens(line, COMMA);
    if texts == [] then Err(EmptyField) else ParseList(texts, FieldReader(kind))
  }

  function FaultOf<T>(r: Result<T>): Option<Fault>
  {
    if r.Err? then Some(r.fault) else None
  }

  // "a (1)": no operator, so the operator of the edge is never set.
  lemma {:induction false} UnsetOperatorExample(kind: Kind)
    ensures ParseAlternative([97, 32, 40, 49, 41], kind) == Err(UnsetOperator)
  {
    var s: Name := [97, 32, 40, 49, 41];
    SpanIs(s, IsSpace, 0);
    assert s[0..] == s;
    SpanIs(s, NotOpen, 2);
    var v: Name := [40, 49, 41];
    assert s[2..] == v;
    SpanIs(v, IsBlank, 1);
    var v1: Name := [49, 41];
    assert v[1..] == v1;
    SpanIs(v1, IsOperator, 0);
    assert v1[..0] == [];
  }

  // The first "(" of a text, the run of blanks and "(" that it starts, and the run of operator
  // characters behind that.
  ghost predicate OpensAt(text: Name, i: nat)
  {
    i < |text| && text[i] == OPEN && forall k :: 0 <= k < i ==> text[k] != OPEN
  }

  ghost predicate BlanksTo(text: Name, i: nat, j: nat)
  {
    i <= j <= |text| && (forall k :: i <= k < j ==> IsBlank(text[k])) && (j < |text| ==> !IsBlank(text[j]))
  }

  ghost predicate OperatorTo(text: Name, j: nat, k: nat)
  {
    j <= k <= |text| && (forall n :: j <= n < k ==> IsOperator(text[n])) && (k < |text| ==> !IsOperator(text[k]))
  }

  lemma {:induction false} SpanAt(text: Name, i: nat, j: nat, p: byte -> bool)
    requires i <= j <= |text| && (forall k :: i <= k < j ==> p(text[k])) && (j < |text| ==> !p(text[j]))
    ensures Span(text[i..], p) == j - i
  {
    SpanIs(text[i..], p, j - i);
  }

  lemma {:induction false} SpanOf(s: Name, p: byte -> bool)
    ensures var n := Span(s, p); (forall i :: 0 <= i < n ==> p(s[i])) && (n < |s| ==> !p(s[n]))
  {
    if s != [] && p(s[0]) {
      SpanOf(s[1..], p);
      assert forall i :: 1 <= i < Span(s, p) ==> s[i] == s[1..][i - 1];
    }
  }

  lemma {:induction false} SpacesBefore(text: Name, i: nat)
    requires i < |text| && text[i] == OPEN
    ensures Span(text, IsSpace) <= i
  {
    if i > 0 && text[0] == SPACE { SpacesBefore(text[1..], i - 1); }
  }

  // What is left of a text before its parts at i, j and k.
  lemma {:induction false} RestAt(text: Name, i: nat, j: nat, k: nat)
    requires OpensAt(text, i) && BlanksTo(text, i, j) && OperatorTo(text, j, k)
    ensures Rest(Rest(text, IsSpace), NotOpen) == text[i..] && Rest(text[i..], IsBlank) == text[j..]
    ensures Span(text[j..], IsOperator) == k - j
  {
    hide Span;
    var a := Span(text, IsSpace);
    SpacesBefore(text, i);
    SpanAt(text, a, i, NotOpen);
    assert text[a..][i - a..] == text[i..];
    SpanAt(text, i, j, IsBlank);
    assert text[i..][j - i..] == text[j..];
    SpanAt(text, j, k, IsOperator);
  }

  // What is read of a text whose parts stand at i, j and k.
  lemma {:induction false} OperatorAt(text: Name, kind: Kind, i: nat, j: nat, k: nat)
    requires OpensAt(text, i) && BlanksTo(text, i, j) && OperatorTo(text, j, k)
    ensures var o := Operator(text[j..k]);
            if o.Err? then ParseAlternative(text, kind) == Err(o.fault) else ParseAlternative(text, kind).Ok?
  {
    hide Span, Operator, OperatorTo, BlanksTo, OpensAt, ParseAlternative, Rest;
    RestAt(text, i, j, k);
    RunsTo(text, i, j, k);
    assert text[j..][..k - j] == text[j..k];
    ReadAt(text, kind, text[i..], text[j..], k - j);
  }

  lemma {:induction false} ReadAt(text: Name, kind: Kind, v: Name, v1: Name, n: nat)
    requires v == Rest(Rest(text, IsSpace), NotOpen) && v != [] && v1 == Rest(v, IsBlank) && n == Span(v1, IsOperator)
    ensures n <= |v1|
    ensures var o := Operator(v1[..n]);
            if o.Err? then ParseAlternative(text, kind) == Err(o.fault) else ParseAlternative(text, kind).Ok?
  {
    hide Span, Operator, Rest;
  }

  lemma {:induction false} RunsTo(text: Name, i: nat, j: nat, k: nat)
    requires OpensAt(text, i) && BlanksTo(text, i, j) && OperatorTo(text, j, k)
    ensures i < |text| && i <= j <= k <= |text|
  {
  }

  lemma {:induction false} NoOpening(text: Name, kind: Kind)
    requires forall k :: 0 <= k < |text| ==> text[k] != OPEN
    ensures ParseAlternative(text, kind).Ok?
  {
    var f := Rest(text, IsSpace);
    SpanIs(f, NotOpen, |f|);
  }

  lemma {:induction false} Parts(text: Name) returns (i: nat, j: nat, k: nat)
    requires exists k :: 0 <= k < |text| && text[k] == OPEN
    ensures OpensAt(text, i) && BlanksTo(text, i, j) && OperatorTo(text, j, k)
  {
    SpanOf(text, NotOpen);
    i := Span(text, NotOpen);
    SpanOf(text[i..], IsBlank);
    j := i + Span(text[i..], IsBlank);
    SpanOf(text[j..], IsOperator);
    k := j + Span(text[j..], IsOperator);
  }

  predicate IsLegal(o: Name)
  {
    o == [61] || o == [60] || o == [60, 60] || o == [60, 61] || o == [62] || o == [62, 62] || o == [62, 61]
  }

  lemma {:induction false} Legal(o: Name)
    ensures Operator(o) == Err(UnsetOperator) <==> o == []
    ensures Operator(o) == Err(IllegalOperator) <==> o != [] && !IsLegal(o)
    ensures Operator(o).Err? ==> Operator(o).fault != EmptyField
  {
    if |o| == 1 {
      assert Starts(o, [61]) <==> o == [61];
      assert (Starts(o, [60, 60]) || Starts(o, [60, 61])) <==> o == [60];
      assert (Starts(o, [62, 62]) || Starts(o, [62, 61])) <==> o == [62];
    }
  }

  // The operator stays unset exactly if there is a "(" and no operator character behind the run of
  // blanks and "(" that the first one starts.
  lemma {:induction false} UnsetExactly(text: Name, kind: Kind)
    ensures ParseAlternative(text, kind) == Err(UnsetOperator)
      <==> exists i: nat, j: nat :: OpensAt(text, i) && BlanksTo(text, i, j) && (j < |text| ==> !IsOperator(text[j]))
  {
    hide ParseAlternative;
    if exists k :: 0 <= k < |text| && text[k] == OPEN {
      var i, j, k := Parts(text);
      OperatorAt(text, kind, i, j, k);
      Legal(text[j..k]);
      if i': nat, j': nat :| OpensAt(text, i') && BlanksTo(text, i', j') && (j' < |text| ==> !IsOperator(text[j'])) {
        OperatorAt(text, kind, i', j', j');
        Legal(text[j'..j']);
      }
      if k == j { assert OpensAt(text, i) && BlanksTo(text, i, j); }
    } else {
      NoOpening(text, kind);
    }
  }

  // The operator characters that follow are no operator.
  ghost predicate Illegal(text: Name, i: nat, j: nat, k: nat)
  {
    OpensAt(text, i) && BlanksTo(text, i, j) && OperatorTo(text, j, k) && j < k && !IsLegal(text[j..k])
  }

  // The program ends with "illegal operator" exactly if there are operator characters there and
  // they are none of =, <, <<, <=, >, >> and >=.
  lemma {:induction false} IllegalExactly(text: Name, kind: Kind)
    ensures ParseAlternative(text, kind) == Err(IllegalOperator)
      <==> exists i: nat, j: nat, k: nat :: Illegal(text, i, j, k)
  {
    hide ParseAlternative;
    if exists k :: 0 <= k < |text| && text[k] == OPEN {
      var i, j, k := Parts(text);
      OperatorAt(text, kind, i, j, k);
      Legal(text[j..k]);
      if i': nat, j': nat, k': nat :| Illegal(text, i', j', k') {
        OperatorAt(text, kind, i', j', k');
        Legal(text[j'..k']);
      }
      if j < k && !IsLegal(text[j..k]) { assert Illegal(text, i, j, k); }
    } else {
      NoOpening(text, kind);
    }
  }

  // A field is empty to the reader exactly if nothing but delimiters is in it.
  lemma {:induction false} NoTokens(s: Name, d: byte)
    ensures Tokens(s, d) == [] <==> forall i :: 0 <= i < |s| ==> s[i] == d
  {
    LeadOf(s, d);
    if Lead(s, d) < |s| { assert s[Lead(s, d)] != d; }
  }

  lemma {:induction false} LeadOf(s: Name, d: byte)
    ensures forall i :: 0 <= i < Lead(s, d) ==> s[i] == d
  {
    if s != [] && s[0] == d {
      LeadOf(s[1..], d);
      assert forall i :: 1 <= i < Lead(s, d) ==> s[i] == s[1..][i - 1];
    }
  }

  lemma {:induction false} SpanIs(s: Name, p: byte -> bool, n: nat)
    requires n <= |s| && (forall i :: 0 <= i < n ==> p(s[i])) && (n < |s| ==> !p(s[n]))
    ensures Span(s, p) == n
  {
    if n > 0 { SpanIs(s[1..], p, n - 1); }
  }

  lemma {:induction false} TokensSkip(s: Name, d: byte)
    ensures Tokens([d] + s, d) == Tokens(s, d)
  {
    assert ([d] + s)[1..] == s;
    assert ([d] + s)[Lead([d] + s, d)..] == s[Lead(s, d)..];
  }

  lemma {:induction false} UntilAt(s: Name, d: byte)
    ensures Until(s, d) < |s| ==> s[Until(s, d)] == d
  {
    if s != [] && s[0] != d { UntilAt(s[1..], d); }
  }

  // strtok_r: the next piece, if any, and what is left behind its delimiter.
  method NextToken(s: Name, d: byte) returns (token: Option<Name>, rest: Name)
    ensures token.None? ==> Tokens(s, d) == []
    ensures token.Some? ==> |rest| < |s| && Tokens(s, d) == [token.value] + Tokens(rest, d)
  {
    var t := s[Lead(s, d)..];
    if t == [] {
      return None, [];
    }
    var n := Until(t, d);
    if n < |t| {
      token, rest := Some(t[..n]), t[n + 1..];
      UntilAt(t, d);
      assert t[n..] == [d] + rest;
      TokensSkip(rest, d);
    } else {
      token, rest := Some(t[..n]), [];
    }
  }

  lemma {:induction false} ListSnoc<T>(done: seq<Name>, t: Name, f: Name -> Result<seq<T>>)
    ensures var r := ParseList(done, f);
            ParseList(done + [t], f) == if r.Err? then r else if f(t).Err? then f(t) else Ok(r.value + f(t).value)
  {
    assert (done + [t])[..|done|] == done;
  }

  // The first fault is that of the whole list.
  lemma {:induction false} ListFails<T>(done: seq<Name>, more: seq<Name>, f: Name -> Result<seq<T>>)
    requires ParseList(done, f).Err?
    ensures ParseList(done + more, f) == ParseList(done, f)
  {
    if more == [] {
      assert done + more == done;
    } else {
      ListFails(done, more[..|more| - 1], f);
      assert (done + more)[..|done + more| - 1] == done + more[..|more| - 1];
    }
  }

  // What is read of the texts, what is left of them, and what was made of those read.
  ghost predicate SoFar<T(!new)>(texts: seq<Name>, done: seq<Name>, left: seq<Name>, f: Name -> Result<seq<T>>,
      made: seq<T>)
  {
    texts == done + left && ParseList(done, f) == Ok(made)
  }

  lemma {:induction false} SoFarStart<T(!new)>(texts: seq<Name>, f: Name -> Result<seq<T>>)
    ensures SoFar(texts, [], texts, f, [])
  {
  }

  lemma {:induction false} SoFarStep<T(!new)>(texts: seq<Name>, done: seq<Name>, left: seq<Name>,
      f: Name -> Result<seq<T>>, made: seq<T>)
    requires SoFar(texts, done, left, f, made) && left != []
    ensures f(left[0]).Ok? ==> SoFar(texts, done + [left[0]], left[1..], f, made + f(left[0]).value)
    ensures f(left[0]).Err? ==> ParseList(texts, f) == f(left[0])
  {
    hide ParseList;
    ListSnoc(done, left[0], f);
    assert texts == (done + [left[0]]) + left[1..];
    if f(left[0]).Err? { ListFails(done + [left[0]], left[1..], f); }
  }

  lemma {:induction false} SoFarEnd<T(!new)>(texts: seq<Name>, done: seq<Name>, f: Name -> Result<seq<T>>, made: seq<T>)
    requires SoFar(texts, done, [], f, made)
    ensures ParseList(texts, f) == Ok(made)
  {
    assert done + [] == done;
  }

  lemma {:induction false} EncodeNone()
    ensures EncodeAll([]) == []
  {
  }

  lemma {:induction false} EncodeSnoc(ds: seq<Dep>, d: Dep)
    ensures EncodeAll(ds + [d]) == EncodeAll(ds) + Encode(d)
  {
    assert (ds + [d])[..|ds|] == ds;
  }

  lemma {:induction false} EncodeConcat(a: seq<Dep>, b: seq<Dep>)
    ensures EncodeAll(a + b) == EncodeAll(a) + EncodeAll(b)
  {
    hide Encode, EncodeAll;
    if b == [] {
      EncodeNone();
      assert a + b == a;
    } else {
      var init, last := b[..|b| - 1], b[|b| - 1];
      EncodeConcat(a, init);
      EncodeSnoc(a + init, last);
      EncodeSnoc(init, last);
      assert b == init + [last] && a + b == (a + init) + [last];
      Assoc(EncodeAll(a), EncodeAll(init), Encode(last));
    }
  }

  lemma {:induction false} EncodeSingles(es: seq<Edge>)
    ensures EncodeAll(Singles(es)) == es
  {
    if es != [] {
      EncodeSingles(es[..|es| - 1]);
      assert Singles(es)[..|es| - 1] == Singles(es[..|es| - 1]);
    }
  }

  lemma {:induction false} EncodeGroup(root: Edge, es: seq<Edge>)
    ensures EncodeAll([Group(root, es)]) == [root] + es
  {
    assert [Group(root, es)][..0] == [];
  }

  // What a token and the rest of the text hold.
  ghost function Left(token: Option<Name>, rest: Name, d: byte): seq<Name>
  {
    if token.Some? then [token.value] + Tokens(rest, d) else []
  }

  // The OR edge of a field, or nothing.
  function Root(grouped: bool, field: Name, kind: Kind, count: nat): (r: seq<Edge>)
    ensures |r| == if grouped then 1 else 0
  {
    if grouped then [OrEdge(field, kind, count)] else []
  }

  lemma {:induction false} FieldEdges(field: Name, kind: Kind, texts: seq<Name>, es: seq<Edge>, before: seq<Edge>,
      grouped: bool)
    ensures before + EncodeAll(FieldDeps(field, kind, texts, es, grouped))
            == (before + Root(grouped, field, kind, |texts|)) + es
  {
    hide EncodeAll, Singles, OrEdge;
    EncodeSingles(es);
    EncodeGroup(OrEdge(field, kind, |texts|), es);
    Assoc(before, Root(grouped, field, kind, |texts|), es);
  }

  // One more alternative, counted in the OR edge.
  lemma {:induction false} Counted(before: seq<Edge>, field: Name, kind: Kind, grouped: bool, es: seq<Edge>, e: Edge,
      edges: seq<Edge>)
    requires edges == (before + Root(grouped, field, kind, |es|)) + es
    ensures grouped ==> |before| < |edges| && edges[|before|] == OrEdge(field, kind, |es|)
    ensures !grouped ==> edges + [e] == (before + Root(grouped, field, kind, |es + [e]|)) + (es + [e])
    ensures grouped ==> edges[|before| := OrEdge(field, kind, |es| + 1)] + [e]
                        == (before + Root(grouped, field, kind, |es + [e]|)) + (es + [e])
  {
  }

  // The node of a package.
  class Node {
    var edges: seq<Edge>

    constructor ()
      ensures edges == []
    {
      edges := [];
    }

    // The alternatives of a field; the OR edge in front of them counts them as they come.
    method AddAlternatives(field: Name, kind: Kind, first: Name, more: Name, grouped: bool, ghost texts: seq<Name>)
      returns (fault: Option<Fault>)
      requires texts == Tokens(field, BAR) == [first] + Tokens(more, BAR)
      modifies this
      ensures fault == FaultOf(ParseAlternatives(texts, kind))
      ensures fault.None? ==>
        edges == (old(edges) + Root(grouped, field, kind, |texts|)) + ParseAlternatives(texts, kind).value
    {
      hide ParseAlternative, SoFar, ParseList, Tokens, Root;
      ghost var before, f := edges, AlternativeReader(kind);
      var at := |edges|;
      edges := edges + Root(grouped, field, kind, 0);
      ghost var done: seq<Name>, es: seq<Edge> := [], [];
      var token, rest := Some(first), more;
      SoFarStart(texts, f);
      assert edges + [] == edges;
      while token.Some?
        invariant SoFar(texts, done, Left(token, rest, BAR), f, es) && |es| == |done|
        invariant edges == (before + Root(grouped, field, kind, |es|)) + es
        decreases token.Some?, |rest|
      {
        ghost var left := Left(token, rest, BAR);
        SoFarStep(texts, done, left, f, es);
        var e := ParseAlternative(token.value, kind);
        if e.Err? {
          return Some(e.fault);
        }
        Counted(before, field, kind, grouped, es, e.value, edges);
        if grouped {
          edges := edges[at := edges[at].(count := edges[at].count + 1)];
        }
        edges := edges + [e.value];
        done, es := done + [left[0]], es + [e.value];
        token, rest := NextToken(rest, BAR);
        assert Left(token, rest, BAR) == left[1..];
      }
      SoFarEnd(texts, done, f, es);
      AllDone(texts, done, f, es);
      fault := None;
    }

    // One field between commas.
    method AddField(text: Name, kind: Kind) returns (fault: Option<Fault>)
      modifies this
      ensures fault == FaultOf(ParseField(text, kind))
      ensures fault.None? ==> edges == old(edges) + EncodeAll(ParseField(text, kind).value)
    {
      hide ParseAlternatives, Tokens, EncodeAll, Root, FieldDeps;
      var field := Rest(text, IsSpace);
      var token, rest := NextToken(field, BAR);
      if token.None? {
        return Some(EmptyField);
      }
      var grouped := IsDependency(kind) && field != token.value;
      ghost var before, texts := edges, Tokens(field, BAR);
      fault := AddAlternatives(field, kind, token.value, rest, grouped, texts);
      if fault.None? {
        FieldEdges(field, kind, texts, ParseAlternatives(texts, kind).value, before, grouped);
      }
    }

    // add_split_dependencies
    method AddSplitDependencies(line: Name, kind: Kind) returns (fault: Option<Fault>)
      modifies this
      ensures fault == FaultOf(ParseLine(line, kind))
      ensures fault.None? ==> edges == old(edges) + EncodeAll(ParseLine(line, kind).value)
    {
      hide ParseField, SoFar, ParseList, Tokens, EncodeAll;
      var token, rest := NextToken(line, COMMA);
      if token.None? {
        return Some(EmptyField);
      }
      ghost var texts, before, f := Tokens(line, COMMA), edges, FieldReader(kind);
      ghost var done: seq<Name>, ds: seq<Dep> := [], [];
      SoFarStart(texts, f);
      EncodeNone();
      while token.Some?
        invariant SoFar(texts, done, Left(token, rest, COMMA), f, ds)
        invariant edges == before + EncodeAll(ds)
        decreases token.Some?, |rest|
      {
        ghost var left := Left(token, rest, COMMA);
        SoFarStep(texts, done, left, f, ds);
        fault := AddField(token.value, kind);
        if fault.Some? {
          return;
        }
        ghost var more := ParseField(token.value, kind).value;
        EncodeConcat(ds, more);
        Assoc(before, EncodeAll(ds), EncodeAll(more));
        done, ds := done + [left[0]], ds + more;
        token, rest := NextToken(rest, COMMA);
        assert Left(token, rest, COMMA) == left[1..];
      }
      SoFarEnd(texts, done, f, ds);
      fault := None;
    }
  }

  lemma {:induction false} AllDone<T(!new)>(texts: seq<Name>, done: seq<Name>, f: Name -> Result<seq<T>>, made: seq<T>)
    requires SoFar(texts, done, [], f, made)
    ensures done == texts
  {
    assert done + [] == done;
  }
}
