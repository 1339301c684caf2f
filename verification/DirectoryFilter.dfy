/** Turning an addressbook-query filter into a directory query, as expressionFromABFilter of
    twistedcaldav/directorybackedaddressbook.py does: results that are all records, no records
    or a list of matches are combined, flattened and deduplicated, with early exits. */
module DirectoryFilter {

  import opened Collections

  // ----- Queries -----

  /** A test of a field of a directory record for a text; `kind` is the match type with its
      flags, but for negation. */
  datatype Test = Test(field: string, text: string, kind: nat)

  datatype Match = Match(test: Test, negated: bool)

  datatype Operand = AND | OR

  datatype Query = Basic(m: Match) | Compound(parts: seq<Query>, operand: Operand)

  /** A directory record, as far as filters can tell: the tests that its fields pass, those that
      its properties without a field pass, the fields or such properties that it has, and the
      values of the parameters of its properties. */
  datatype Record = Record(passes: Test -> bool, unsearched: Test -> bool, defined: string -> bool,
                           value: (string, string) -> Option<string>)

  ghost predicate Satisfies(r: Record, q: Query) {
    match q
    case Basic(m) => r.passes(m.test) != m.negated
    case Compound(parts, AND) => forall i :: 0 <= i < |parts| ==> Satisfies(r, parts[i])
    case Compound(parts, OR) => exists i :: 0 <= i < |parts| && Satisfies(r, parts[i])
  }

  /** All parts, or any of them. */
  ghost predicate Joined(r: Record, parts: seq<Query>, allOf: bool) {
    Satisfies(r, Compound(parts, if allOf then AND else OR))
  }

  // ----- Four-state results -----

  /** What is known of a filter so far: None, True, False or a list of expressions. */
  datatype Exprs = Ignore | Everything | Nothing | List(parts: seq<Query>)

  /** None is neutral; the expressions of a list are joined by the test of their parent. */
  ghost predicate Value(x: Exprs, allOf: bool, r: Record) {
    match x
    case Ignore => allOf
    case Everything => true
    case Nothing => false
    case List(parts) => Joined(r, parts, allOf)
  }

  function CombineExpressionLists(x: Exprs, allOf: bool, added: Exprs): Exprs {
    if x.Ignore? then added
    else match added
      case Ignore => x
      case Everything => if !allOf then Everything else x
      case Nothing => if allOf then Nothing else x
      case List(parts) =>
        match x
        case Nothing => if !allOf then added else x
        case Everything => if allOf then added else x
        case List(before) => List(before + parts)
  }

  ghost predicate Join(allOf: bool, a: bool, b: bool) {
    if allOf then a && b else a || b
  }

  lemma JoinedMore(r: Record, s: seq<Query>, t: seq<Query>, allOf: bool)
    ensures Joined(r, s + t, allOf) == Join(allOf, Joined(r, s, allOf), Joined(r, t, allOf))
  {
    if allOf {
      if Joined(r, s + t, allOf) {
        assert forall i :: 0 <= i < |s| ==> s[i] == (s + t)[i];
        assert forall i :: 0 <= i < |t| ==> t[i] == (s + t)[|s| + i];
      }
    } else {
      if Joined(r, s, allOf) {
        var i :| 0 <= i < |s| && Satisfies(r, s[i]);
        assert (s + t)[i] == s[i];
      }
      if Joined(r, t, allOf) {
        var i :| 0 <= i < |t| && Satisfies(r, t[i]);
        assert (s + t)[|s| + i] == t[i];
      }
    }
  }

  /** Combining two results joins what they say, whichever of the four states each is in. */
  lemma CombineJoins(x: Exprs, allOf: bool, added: Exprs, r: Record)
    ensures Value(CombineExpressionLists(x, allOf, added), allOf, r) ==
              Join(allOf, Value(x, allOf, r), Value(added, allOf, r))
  {
    hide Joined;
    if x.List? && added.List? {
      JoinedMore(r, x.parts, added.parts, allOf);
    }
  }

  /** Nothing that is combined with it can change a result that settles the matter. */
  predicate Settled(x: Exprs, allOf: bool) {
    x == if allOf then Nothing else Everything
  }

  ghost predicate SameParts(s: seq<Query>, t: seq<Query>) {
    forall q :: q in s <==> q in t
  }

  lemma JoinedSame(r: Record, s: seq<Query>, t: seq<Query>, allOf: bool)
    requires SameParts(s, t)
    ensures Joined(r, s, allOf) == Joined(r, t, allOf)
  {
    if allOf {
      if Joined(r, s, allOf) {
        assert forall i :: 0 <= i < |t| ==> t[i] in t && t[i] in s;
      }
      if Joined(r, t, allOf) {
        assert forall i :: 0 <= i < |s| ==> s[i] in s && s[i] in t;
      }
    } else {
      if Joined(r, s, allOf) {
        var i :| 0 <= i < |s| && Satisfies(r, s[i]);
        assert s[i] in t;
      }
      if Joined(r, t, allOf) {
        var i :| 0 <= i < |t| && Satisfies(r, t[i]);
        assert t[i] in s;
      }
    }
  }

  lemma JoinedOne(r: Record, q: Query, allOf: bool)
    ensures Joined(r, [q], allOf) == Satisfies(r, q)
  {
    assert [q][0] == q;
  }

  // ----- Filters -----

  /** How a text is compared with the value of a parameter; both are in upper case. */
  datatype MatchType = Equals | Contains | StartsWith | EndsWith

  predicate Matches(kind: MatchType, text: string, value: string) {
    match kind
    case Equals => value == text
    case Contains => exists i :: 0 <= i <= |value| && text <= value[i..]
    case StartsWith => text <= value
    case EndsWith => |text| <= |value| && value[|value| - |text|..] == text
  }

  /** What a param-filter is about (RFC 6352 section 10.5.2). */
  datatype ParamTest = Exists | Absent | HasText(text: string, negate: bool, kind: MatchType)

  /** A child of a prop-filter. A text-match has the strings to search for in the fields of the
      property, unless the property is a constant, for which the match is decided at once. */
  datatype Element =
    | ParamFilter(param: string, test: ParamTest)
    | TextMatch(texts: seq<string>, negate: bool, kind: nat, ofConstant: bool)

  /** A prop-filter: the fields its property is mapped to, if any; the parameters that vCards can
      have on it, each with its possible values, or none if it can have any; whether the property
      is one with a constant value, and whether every record has it. */
  datatype PropFilter = PropFilter(name: string, fields: seq<string>, params: map<string, set<string>>,
                                   constant: bool, always: bool,
                                   isNotDefined: bool, allOf: bool, filters: seq<Element>)

  const NOT_DEFINED := TextMatch([], true, 0, false)

  /** With an is-not-defined qualifier, an empty negated text-match is one of the children. */
  function Children(p: PropFilter): seq<Element> {
    if p.isNotDefined then p.filters + [NOT_DEFINED] else p.filters
  }

  predicate Mapped(p: PropFilter) {
    p.fields != [] || p.constant
  }

  ghost predicate AnyFieldMatches(p: PropFilter, text: string, kind: nat, negate: bool, r: Record) {
    exists i :: 0 <= i < |p.fields| && r.passes(Test(p.fields[i], text, kind)) != negate
  }

  /** The answer that a param-filter is given for all records alike: whether the table of parameters
      says so. Where the table has none for the property, the answer is no whatever the question;
      a text has to be one of the values itself, however it is to be compared. */
  predicate ParamHolds(p: PropFilter, param: string, test: ParamTest) {
    && p.params != map[]
    && match test
       case Exists => param in p.params
       case Absent => param !in p.params
       case HasText(text, _, _) => param in p.params && (p.params[param] == {} || text in p.params[param])
  }

  /** What the matches made for one child come to. A search for several words is one for the
      last, and a search for the property itself finds every record. */
  ghost predicate ElementHolds(p: PropFilter, e: Element, r: Record) {
    match e
    case ParamFilter(param, test) => ParamHolds(p, param, test)
    case TextMatch(texts, negate, kind, ofConstant) =>
      if p.constant then ofConstant
      else if texts == [] then (if negate && p.always then false else true)
      else AnyFieldMatches(p, texts[|texts| - 1], kind, negate, r)
  }

  ghost predicate FirstHold(p: PropFilter, es: seq<Element>, n: nat, allOf: bool, r: Record)
    requires n <= |es|
  {
    if allOf then forall i :: 0 <= i < n ==> ElementHolds(p, es[i], r)
    else exists i :: 0 <= i < n && ElementHolds(p, es[i], r)
  }

  /** The same for a prop-filter. */
  ghost predicate PropHolds(p: PropFilter, r: Record) {
    FirstHold(p, Children(p), |Children(p)|, p.allOf, r)
  }

  /** Prop-filters of unmapped properties, and those without children, are skipped. */
  predicate Skipped(p: PropFilter) {
    !Mapped(p) || Children(p) == []
  }

  ghost predicate FirstPropsHold(ps: seq<PropFilter>, n: nat, allOf: bool, r: Record)
    requires n <= |ps|
  {
    if allOf then forall i :: 0 <= i < n && !Skipped(ps[i]) ==> PropHolds(ps[i], r)
    else exists i :: 0 <= i < n && !Skipped(ps[i]) && PropHolds(ps[i], r)
  }

  // ----- What a filter asks for -----

  /** The record has the property. */
  ghost predicate Present(p: PropFilter, r: Record) {
    || p.constant
    || p.always
    || if p.fields == [] then r.defined(p.name) else exists i :: 0 <= i < |p.fields| && r.defined(p.fields[i])
  }

  /** Some field of the property, or if it has none the property itself, passes the test for the text. */
  ghost predicate Found(p: PropFilter, text: string, kind: nat, r: Record) {
    if p.fields == [] then r.unsearched(Test(p.name, text, kind))
    else exists i :: 0 <= i < |p.fields| && r.passes(Test(p.fields[i], text, kind))
  }

  ghost predicate AllFound(p: PropFilter, texts: seq<string>, kind: nat, r: Record) {
    forall k :: 0 <= k < |texts| ==> Found(p, texts[k], kind, r)
  }

  /** A value that the parameter of the property can have: None if it is absent. */
  predicate Allowed(p: PropFilter, param: string, v: Option<string>) {
    v.Some? ==> param in p.params && (p.params[param] == {} || v.value in p.params[param])
  }

  ghost function ParamValue(p: PropFilter, param: string, r: Record): Option<string> {
    if Allowed(p, param, r.value(p.name, param)) then r.value(p.name, param) else None
  }

  predicate Meets(test: ParamTest, v: Option<string>) {
    match test
    case Exists => v.Some?
    case Absent => v.None?
    case HasText(text, negate, kind) => v.Some? && Matches(kind, text, v.value) != negate
  }

  /** What a child of a prop-filter asks of a record (RFC 6352 section 10.5): a param-filter, that
      the parameter is there, or is not, or has a value with or without the text; a text-match,
      that every word of its text is found in the property, or if negated that some word is not;
      an empty text, that the property is there, or if negated (which is how is-not-defined comes
      here) that it is not. Constants are decided beforehand. */
  ghost predicate ChildAsks(p: PropFilter, e: Element, r: Record) {
    match e
    case ParamFilter(param, test) => Meets(test, ParamValue(p, param, r))
    case TextMatch(texts, negate, kind, ofConstant) =>
      if p.constant then ofConstant
      else if texts == [] then Present(p, r) != negate
      else AllFound(p, texts, kind, r) != negate
  }

  predicate AllSame<T(==)>(s: seq<T>) {
    forall i, j :: 0 <= i < j < |s| ==> s[i] == s[j]
  }

  /** The matches made for a child are what it asks for. */
  ghost predicate MeansSame(p: PropFilter, e: Element) {
    forall r: Record :: ElementHolds(p, e, r) == ChildAsks(p, e, r)
  }

  /** The matches made for a child miss no record it asks for. */
  ghost predicate MissesNone(p: PropFilter, e: Element) {
    forall r: Record :: ChildAsks(p, e, r) ==> ElementHolds(p, e, r)
  }

  /** The answer to a param-filter is right for every record: the vCards have no such parameter
      (but the table has others, if absence is asked for), or none of its values will do. */
  predicate ParamExact(p: PropFilter, param: string, test: ParamTest) {
    match test
    case Exists => param !in p.params
    case Absent => param !in p.params && p.params != map[]
    case HasText(text, negate, kind) =>
      param in p.params ==>
        p.params[param] != {} && text !in p.params[param] &&
        forall v :: v in p.params[param] ==> Matches(kind, text, v) == negate
  }

  predicate Exact(p: PropFilter, e: Element) {
    match e
    case ParamFilter(param, test) => ParamExact(p, param, test)
    case TextMatch(texts, negate, _, _) =>
      p.constant || (if texts == [] then p.always else AllSame(texts) && (negate ==> AllSame(p.fields)))
  }

  predicate Complete(p: PropFilter, e: Element) {
    match e
    case ParamFilter(param, test) => ParamHolds(p, param, test) || ParamExact(p, param, test)
    case TextMatch(texts, negate, _, _) => !p.constant && negate ==> AllSame(texts)
  }

  lemma OneText(texts: seq<string>)
    requires texts != [] && AllSame(texts)
    ensures forall k :: 0 <= k < |texts| ==> texts[k] == texts[|texts| - 1]
  {
  }

  lemma OtherText(texts: seq<string>) returns (w: nat)
    requires !AllSame(texts)
    ensures w < |texts| && texts[w] != texts[|texts| - 1]
  {
    var i, j :| 0 <= i < j < |texts| && texts[i] != texts[j];
    w := if texts[i] != texts[|texts| - 1] then i else j;
  }

  /** Searching for the last word is searching for all words if and only if there is only one
      word, however often. */
  lemma LastWordExactly(p: PropFilter, texts: seq<string>, kind: nat)
    requires p.fields != [] && texts != []
    ensures (forall r: Record :: Found(p, texts[|texts| - 1], kind, r) == AllFound(p, texts, kind, r)) <==>
              AllSame(texts)
  {
    var last := texts[|texts| - 1];
    if AllSame(texts) {
      OneText(texts);
    } else {
      var w := OtherText(texts);
      var r := Record((t: Test) => t.text == last, _ => true, _ => true, (_, _) => None);
      assert r.passes(Test(p.fields[0], last, kind));
      assert Found(p, last, kind, r) && !Found(p, texts[w], kind, r);
      assert !AllFound(p, texts, kind, r);
    }
  }

  lemma PositiveMeans(p: PropFilter, texts: seq<string>, kind: nat, ofConstant: bool)
    requires !p.constant && p.fields != [] && texts != []
    ensures var e := TextMatch(texts, false, kind, ofConstant);
      (MeansSame(p, e) <==> AllSame(texts)) && MissesNone(p, e)
  {
    var e, last := TextMatch(texts, false, kind, ofConstant), texts[|texts| - 1];
    forall r: Record
      ensures ElementHolds(p, e, r) == Found(p, last, kind, r) && ChildAsks(p, e, r) == AllFound(p, texts, kind, r)
    {
    }
    LastWordExactly(p, texts, kind);
    hide ElementHolds, ChildAsks, Found;
  }

  /** That a text is in none of the fields is that some field is without it if and only if there
      is only one field, however often. */
  lemma OneFieldExactly(p: PropFilter, text: string, kind: nat)
    requires p.fields != []
    ensures forall r: Record :: !Found(p, text, kind, r) ==> AnyFieldMatches(p, text, kind, true, r)
    ensures (forall r: Record :: !Found(p, text, kind, r) == AnyFieldMatches(p, text, kind, true, r)) <==>
              AllSame(p.fields)
  {
    forall r: Record
      ensures !Found(p, text, kind, r) ==> AnyFieldMatches(p, text, kind, true, r)
    {
      if !Found(p, text, kind, r) { assert !r.passes(Test(p.fields[0], text, kind)); }
    }
    if AllSame(p.fields) {
      assert forall i :: 0 <= i < |p.fields| ==> p.fields[i] == p.fields[0];
    } else {
      var i, j :| 0 <= i < j < |p.fields| && p.fields[i] != p.fields[j];
      var r := Record((t: Test) => t.field == p.fields[i], _ => true, _ => true, (_, _) => None);
      assert r.passes(Test(p.fields[i], text, kind)) && !r.passes(Test(p.fields[j], text, kind));
      assert Found(p, text, kind, r) && AnyFieldMatches(p, text, kind, true, r);
    }
  }

  lemma NegativeMeans(p: PropFilter, texts: seq<string>, kind: nat, ofConstant: bool)
    requires !p.constant && p.fields != [] && texts != []
    ensures var e := TextMatch(texts, true, kind, ofConstant);
      && (MeansSame(p, e) <==> AllSame(texts) && AllSame(p.fields))
      && (MissesNone(p, e) <==> AllSame(texts))
  {
    var e, last := TextMatch(texts, true, kind, ofConstant), texts[|texts| - 1];
    if !AllSame(texts) {
      var w := OtherText(texts);
      var r := Record((t: Test) => t.text != texts[w], _ => true, _ => true, (_, _) => None);
      assert !Found(p, texts[w], kind, r);
      assert ChildAsks(p, e, r) && !ElementHolds(p, e, r);
    } else {
      LastWordExactly(p, texts, kind);
      forall r: Record
        ensures ElementHolds(p, e, r) == AnyFieldMatches(p, last, kind, true, r)
        ensures ChildAsks(p, e, r) == !Found(p, last, kind, r)
      {
      }
      OneFieldExactly(p, last, kind);
      hide ElementHolds, ChildAsks, Found, AnyFieldMatches;
    }
  }

  lemma EmptyMeans(p: PropFilter, negate: bool, kind: nat, ofConstant: bool)
    requires !p.constant && p.fields != []
    ensures var e := TextMatch([], negate, kind, ofConstant);
      (MeansSame(p, e) <==> p.always) && MissesNone(p, e)
  {
    var e := TextMatch([], negate, kind, ofConstant);
    if !p.always {
      var r := Record(_ => negate, _ => true, _ => negate, (_, _) => None);
      assert r.defined(p.fields[0]) == negate;
      assert !ChildAsks(p, e, r) && ElementHolds(p, e, r);
    }
  }

  lemma ParamMeans(p: PropFilter, param: string, test: ParamTest)
    ensures MeansSame(p, ParamFilter(param, test)) <==> ParamExact(p, param, test)
    ensures MissesNone(p, ParamFilter(param, test)) <==> ParamHolds(p, param, test) || ParamExact(p, param, test)
  {
    var e := ParamFilter(param, test);
    forall r: Record
      ensures ElementHolds(p, e, r) == ParamHolds(p, param, test)
      ensures ChildAsks(p, e, r) == Meets(test, ParamValue(p, param, r)) && Allowed(p, param, ParamValue(p, param, r))
    {
    }
    WithValue(p, param, None);
    if param in p.params {
      forall v | v in p.params[param]
        ensures exists r: Record :: ParamValue(p, param, r) == Some(v)
      {
        WithValue(p, param, Some(v));
      }
    }
    hide ElementHolds, ChildAsks, ParamValue, Matches;
  }

  lemma WithValue(p: PropFilter, param: string, v: Option<string>)
    requires Allowed(p, param, v)
    ensures exists r: Record :: ParamValue(p, param, r) == v
  {
    var r := Record(_ => true, _ => true, _ => true, (_, _) => v);
    assert ParamValue(p, param, r) == v;
  }

  /** When the matches made for a child of a mapped property are exactly what it asks for, and
      when they at least miss nothing. They are made for the last word only; absence is not
      searched for; and of several fields that a negated text must not be in, one is enough. A
      param-filter has one answer for all records. */
  lemma ChildMeans(p: PropFilter, e: Element)
    requires Mapped(p)
    ensures MeansSame(p, e) <==> Exact(p, e)
    ensures MissesNone(p, e) <==> Complete(p, e)
  {
    match e
    case ParamFilter(param, test) => ParamMeans(p, param, test);
    case TextMatch(texts, negate, kind, ofConstant) =>
      if !p.constant {
        if texts == [] {
          EmptyMeans(p, negate, kind, ofConstant);
        } else if negate {
          NegativeMeans(p, texts, kind, ofConstant);
        } else {
          PositiveMeans(p, texts, kind, ofConstant);
        }
      }
  }

  const NAME := PropFilter("N", ["fullNames"], map[], false, true, false, false, [])

  const ADDRESS := PropFilter("ADR", ["streetAddress"], map["TYPE" := {"WORK"}], false, false, false, false, [])

  /** Of an address that may be for work, neither that its TYPE is absent nor that it starts with
      "WOR" is answered with yes; nor is, of a property without parameters, that one is absent. */
  lemma ParamAnswersMissSome()
    ensures !MissesNone(ADDRESS, ParamFilter("TYPE", Absent))
    ensures !MissesNone(ADDRESS, ParamFilter("TYPE", HasText("WOR", false, StartsWith)))
    ensures !MissesNone(NAME, ParamFilter("TYPE", Absent))
  {
    ParamMeans(ADDRESS, "TYPE", Absent);
    ParamMeans(ADDRESS, "TYPE", HasText("WOR", false, StartsWith));
    ParamMeans(NAME, "TYPE", Absent);
    assert |"WOR"| != |"WORK"| && "WOR" <= "WORK" && Matches(StartsWith, "WOR", "WORK");
    hide MissesNone;
  }

  /** A search for "Smith" stands for one for "John Smith". */
  lemma LastWordMatchesTooMuch()
    ensures !MeansSame(NAME, TextMatch(["John", "Smith"], false, 0, false))
  {
    assert "John"[0] != "Smith"[0];
    assert ["John", "Smith"][0] != ["John", "Smith"][1];
    assert !AllSame(["John", "Smith"]);
    PositiveMeans(NAME, ["John", "Smith"], 0, false);
  }

  /** And one for records without "Smith" for one for records that are not "John Smith": Jane
      Smith is missed. */
  lemma LastWordMissesSome()
    ensures !MissesNone(NAME, TextMatch(["John", "Smith"], true, 0, false))
  {
    assert "John"[0] != "Smith"[0];
    assert ["John", "Smith"][0] != ["John", "Smith"][1];
    assert !AllSame(["John", "Smith"]);
    NegativeMeans(NAME, ["John", "Smith"], 0, false);
  }

  /** What a prop-filter asks for: without children, that the property is there (section 10.5.1). */
  ghost predicate PropAsks(p: PropFilter, r: Record) {
    var es := Children(p);
    if es == [] then Present(p, r)
    else if p.allOf then forall i :: 0 <= i < |es| ==> ChildAsks(p, es[i], r)
    else exists i :: 0 <= i < |es| && ChildAsks(p, es[i], r)
  }

  /** What a filter asks for: without prop-filters, every record. */
  ghost predicate FilterAsks(ps: seq<PropFilter>, allOf: bool, r: Record) {
    if ps == [] then true
    else if allOf then forall i :: 0 <= i < |ps| ==> PropAsks(ps[i], r)
    else exists i :: 0 <= i < |ps| && PropAsks(ps[i], r)
  }

  /** The same without the prop-filters that the query skips. */
  ghost predicate CountedAsk(ps: seq<PropFilter>, allOf: bool, r: Record) {
    if allOf then forall i :: 0 <= i < |ps| && !Skipped(ps[i]) ==> PropAsks(ps[i], r)
    else exists i :: 0 <= i < |ps| && !Skipped(ps[i]) && PropAsks(ps[i], r)
  }

  /** is-not-defined on a property that not every record has: all records are selected, those
      that have the property among them. */
  lemma IsNotDefinedSelectsAll(p: PropFilter, r: Record)
    requires p.isNotDefined && p.filters == [] && p.fields != [] && !p.constant && !p.always
    ensures !Skipped(p) && PropHolds(p, r)
    ensures PropAsks(p, r) <==> !Present(p, r)
  {
    assert Children(p) == [NOT_DEFINED];
    assert Children(p)[0] == NOT_DEFINED;
    assert ElementHolds(p, NOT_DEFINED, r);
    assert ChildAsks(p, NOT_DEFINED, r) <==> !Present(p, r);
  }

  predicate AllExact(ps: seq<PropFilter>) {
    forall i, k :: 0 <= i < |ps| && !Skipped(ps[i]) && 0 <= k < |Children(ps[i])| ==> Exact(ps[i], Children(ps[i])[k])
  }

  predicate AllComplete(ps: seq<PropFilter>) {
    forall i, k :: 0 <= i < |ps| && !Skipped(ps[i]) && 0 <= k < |Children(ps[i])| ==>
      Complete(ps[i], Children(ps[i])[k])
  }

  lemma PropMeans(p: PropFilter, r: Record)
    requires !Skipped(p)
    ensures (forall k :: 0 <= k < |Children(p)| ==> Exact(p, Children(p)[k])) ==> PropHolds(p, r) == PropAsks(p, r)
    ensures (forall k :: 0 <= k < |Children(p)| ==> Complete(p, Children(p)[k])) ==>
              (PropAsks(p, r) ==> PropHolds(p, r))
  {
    hide ElementHolds, ChildAsks, Exact, Complete;
    forall k | 0 <= k < |Children(p)|
      ensures Exact(p, Children(p)[k]) ==> ElementHolds(p, Children(p)[k], r) == ChildAsks(p, Children(p)[k], r)
      ensures Complete(p, Children(p)[k]) && ChildAsks(p, Children(p)[k], r) ==> ElementHolds(p, Children(p)[k], r)
    {
      ChildMeans(p, Children(p)[k]);
    }
  }

  /** If the children that count are all exact, the query selects what their prop-filters ask
      for; if they all miss nothing, nothing of that is missed. */
  lemma CountedMean(ps: seq<PropFilter>, allOf: bool, r: Record)
    ensures AllExact(ps) ==> FirstPropsHold(ps, |ps|, allOf, r) == CountedAsk(ps, allOf, r)
    ensures AllComplete(ps) ==> (CountedAsk(ps, allOf, r) ==> FirstPropsHold(ps, |ps|, allOf, r))
  {
    hide PropHolds, PropAsks, Exact, Complete;
    forall i | 0 <= i < |ps| && !Skipped(ps[i])
      ensures AllExact(ps) ==> PropHolds(ps[i], r) == PropAsks(ps[i], r)
      ensures AllComplete(ps) && PropAsks(ps[i], r) ==> PropHolds(ps[i], r)
    {
      PropMeans(ps[i], r);
    }
    hide Skipped;
  }

  // ----- What skipped prop-filters ask for -----

  /** Some child wants the text found in the property. */
  predicate Wanted(es: seq<Element>, t: Test) {
    exists i :: 0 <= i < |es| && es[i].TextMatch? && !es[i].negate && es[i].kind == t.kind && t.text in es[i].texts
  }

  /** Some child wants the property absent. */
  predicate AbsenceWanted(es: seq<Element>) {
    exists i :: 0 <= i < |es| && es[i].TextMatch? && es[i].negate && es[i].texts == []
  }

  /** A value of the parameter that suits all the param-filters about it. */
  ghost predicate ValueFits(p: PropFilter, es: seq<Element>, param: string, v: Option<string>) {
    && Allowed(p, param, v)
    && forall i :: 0 <= i < |es| && es[i].ParamFilter? && es[i].param == param ==> Meets(es[i].test, v)
  }

  /** A child of an unmapped prop-filter can be satisfied together with the children `es`: a
      negated text is not wanted whole by them, they do not want the property both there and
      absent, and some value suits all that they want of the parameter. */
  ghost predicate Compatible(p: PropFilter, es: seq<Element>, e: Element) {
    match e
    case ParamFilter(param, _) => exists v :: ValueFits(p, es, param, v)
    case TextMatch(texts, negate, kind, _) =>
      if texts == [] then (if negate then !p.always else p.always || !AbsenceWanted(es))
      else negate ==> exists k :: 0 <= k < |texts| && !Wanted(es, Test(p.name, texts[k], kind))
  }

  /** Some record has what the prop-filter asks for. */
  ghost predicate CanAsk(p: PropFilter) {
    var es := Children(p);
    || es == []
    || if p.allOf then forall i :: 0 <= i < |es| ==> Compatible(p, es, es[i])
       else exists i :: 0 <= i < |es| && Compatible(p, [es[i]], es[i])
  }

  /** A record with given searchable fields that has just what the children want otherwise. */
  ghost function Wish(p: PropFilter, es: seq<Element>, passes: Test -> bool): Record {
    Record(passes, (t: Test) => Wanted(es, t), (f: string) => !AbsenceWanted(es),
           (name: string, param: string) => FittingValue(p, es, param))
  }

  ghost function FittingValue(p: PropFilter, es: seq<Element>, param: string): Option<string> {
    if exists v :: ValueFits(p, es, param, v) then var v :| ValueFits(p, es, param, v); v else None
  }

  lemma WishGranted(p: PropFilter, es: seq<Element>, i: nat, passes: Test -> bool)
    requires !Mapped(p) && i < |es| && Compatible(p, es, es[i])
    ensures ChildAsks(p, es[i], Wish(p, es, passes))
  {
    var r := Wish(p, es, passes);
    match es[i]
    case ParamFilter(param, _) =>
      assert ValueFits(p, es, param, ParamValue(p, param, r));
    case TextMatch(texts, negate, kind, _) =>
      if texts != [] && !negate {
        forall k | 0 <= k < |texts| ensures Found(p, texts[k], kind, r) {
          assert Wanted(es, Test(p.name, texts[k], kind));
        }
      }
  }

  lemma WantedIsThere(p: PropFilter, es: seq<Element>, r: Record)
    requires !Mapped(p) && forall j :: 0 <= j < |es| ==> ChildAsks(p, es[j], r)
    ensures forall t :: Wanted(es, t) ==> r.unsearched(t.(field := p.name))
    ensures AbsenceWanted(es) ==> !Present(p, r)
  {
    forall t | Wanted(es, t) ensures r.unsearched(t.(field := p.name)) {
      var j :| 0 <= j < |es| && es[j].TextMatch? && !es[j].negate && es[j].kind == t.kind && t.text in es[j].texts;
      assert ChildAsks(p, es[j], r);
      assert Found(p, t.text, t.kind, r);
    }
    if AbsenceWanted(es) {
      var j :| 0 <= j < |es| && es[j].TextMatch? && es[j].negate && es[j].texts == [];
      assert ChildAsks(p, es[j], r);
    }
  }

  lemma AskedIsCompatible(p: PropFilter, es: seq<Element>, i: nat, r: Record)
    requires !Mapped(p) && i < |es| && forall j :: 0 <= j < |es| ==> ChildAsks(p, es[j], r)
    ensures Compatible(p, es, es[i])
  {
    WantedIsThere(p, es, r);
    assert ChildAsks(p, es[i], r);
    hide Wanted, AbsenceWanted;
    if es[i].ParamFilter? {
      assert ValueFits(p, es, es[i].param, ParamValue(p, es[i].param, r));
    } else if es[i].TextMatch? && es[i].texts != [] && es[i].negate {
      var k :| 0 <= k < |es[i].texts| && !Found(p, es[i].texts[k], es[i].kind, r);
      assert !Wanted(es, Test(p.name, es[i].texts[k], es[i].kind));
    }
  }

  /** A skipped prop-filter that can ask for a record asks for one with any searchable fields:
      the query cannot tell. */
  lemma AskedAnyway(p: PropFilter, passes: Test -> bool) returns (r: Record)
    requires Skipped(p) && CanAsk(p)
    ensures r.passes == passes && PropAsks(p, r)
  {
    var es := Children(p);
    if es == [] {
      r := Record(passes, _ => true, _ => true, (_, _) => None);
      if p.fields != [] { assert r.defined(p.fields[0]); }
    } else if p.allOf {
      r := Wish(p, es, passes);
      forall i | 0 <= i < |es| ensures ChildAsks(p, es[i], r) {
        WishGranted(p, es, i, passes);
      }
    } else {
      var i :| 0 <= i < |es| && Compatible(p, [es[i]], es[i]);
      r := Wish(p, [es[i]], passes);
      WishGranted(p, [es[i]], 0, passes);
    }
  }

  lemma AskedCanAsk(p: PropFilter, r: Record)
    requires Skipped(p) && PropAsks(p, r)
    ensures CanAsk(p)
  {
    var es := Children(p);
    if es != [] && p.allOf {
      forall i | 0 <= i < |es| ensures Compatible(p, es, es[i]) {
        AskedIsCompatible(p, es, i, r);
      }
    } else if es != [] {
      var i :| 0 <= i < |es| && ChildAsks(p, es[i], r);
      AskedIsCompatible(p, [es[i]], 0, r);
    }
  }

  /** A skipped prop-filter can ask for a record if and only if some record has what it asks for. */
  lemma CanAskExactly(p: PropFilter)
    requires Skipped(p)
    ensures CanAsk(p) <==> exists r: Record :: PropAsks(p, r)
  {
    if CanAsk(p) {
      var r := AskedAnyway(p, _ => true);
    }
    if r: Record :| PropAsks(p, r) {
      AskedCanAsk(p, r);
    }
  }

  /** Every record has what the skipped prop-filter asks for. */
  ghost predicate MustAsk(p: PropFilter) {
    forall r: Record :: PropAsks(p, r)
  }

  /** A skipped prop-filter does not ask for anything in searchable fields, so that one that does
      not ask for every record leaves out one with any searchable fields. */
  lemma LeftOutAnyway(p: PropFilter, passes: Test -> bool) returns (r: Record)
    requires Skipped(p) && !MustAsk(p)
    ensures r.passes == passes && !PropAsks(p, r)
  {
    var s: Record :| !PropAsks(p, s);
    r := s.(passes := passes);
    var es := Children(p);
    forall i | 0 <= i < |es| ensures ChildAsks(p, es[i], r) == ChildAsks(p, es[i], s) {
      SameChildAsks(p, es[i], r, s);
    }
    assert Present(p, r) == Present(p, s);
    hide ChildAsks, Present;
  }

  lemma SameChildAsks(p: PropFilter, e: Element, r: Record, s: Record)
    requires !Mapped(p) && r == s.(passes := r.passes)
    ensures ChildAsks(p, e, r) == ChildAsks(p, e, s)
  {
    assert forall text, kind :: Found(p, text, kind, r) == Found(p, text, kind, s);
  }

  // ----- When the query is what the filter asks for -----

  predicate SomeCount(ps: seq<PropFilter>) {
    exists i :: 0 <= i < |ps| && !Skipped(ps[i])
  }

  ghost predicate SkippedNeverAsk(ps: seq<PropFilter>) {
    forall i :: 0 <= i < |ps| && Skipped(ps[i]) ==> !CanAsk(ps[i])
  }

  ghost predicate SkippedAlwaysAsk(ps: seq<PropFilter>) {
    forall i :: 0 <= i < |ps| && Skipped(ps[i]) ==> MustAsk(ps[i])
  }

  /** Leaving out the skipped prop-filters loses nothing: under allof never; under anyof if none
      of them can ask for a record, or every record is selected already. */
  ghost predicate SkipsLoseNothing(ps: seq<PropFilter>, allOf: bool) {
    allOf || SkippedNeverAsk(ps) || forall r: Record :: FirstPropsHold(ps, |ps|, false, r)
  }

  /** And it adds nothing: under anyof never; under allof if they all ask for every record, or no
      record is selected anyway. */
  ghost predicate SkipsAddNothing(ps: seq<PropFilter>, allOf: bool) {
    !allOf || SkippedAlwaysAsk(ps) || forall r: Record :: !FirstPropsHold(ps, |ps|, true, r)
  }

  /** Queries test searchable fields only. */
  lemma SameFields(ps: seq<PropFilter>, allOf: bool, r: Record, s: Record)
    requires r.passes == s.passes
    ensures FirstPropsHold(ps, |ps|, allOf, r) == FirstPropsHold(ps, |ps|, allOf, s)
  {
    forall i | 0 <= i < |ps| ensures PropHolds(ps[i], r) == PropHolds(ps[i], s) {
      SamePropFields(ps[i], r, s);
    }
    hide PropHolds, Skipped;
  }

  lemma SamePropFields(p: PropFilter, r: Record, s: Record)
    requires r.passes == s.passes
    ensures PropHolds(p, r) == PropHolds(p, s)
  {
    var es := Children(p);
    forall k | 0 <= k < |es| ensures ElementHolds(p, es[k], r) == ElementHolds(p, es[k], s) {
    }
    hide ElementHolds;
  }

  lemma AskedPart(ps: seq<PropFilter>, r: Record)
    ensures FilterAsks(ps, true, r) ==> CountedAsk(ps, true, r)
    ensures ps != [] && CountedAsk(ps, false, r) ==> FilterAsks(ps, false, r)
    ensures ps != [] && SkippedNeverAsk(ps) ==> (FilterAsks(ps, false, r) ==> CountedAsk(ps, false, r))
    ensures SkippedAlwaysAsk(ps) ==> (CountedAsk(ps, true, r) ==> FilterAsks(ps, true, r))
  {
    forall i | 0 <= i < |ps| && Skipped(ps[i])
      ensures PropAsks(ps[i], r) ==> CanAsk(ps[i])
      ensures MustAsk(ps[i]) ==> PropAsks(ps[i], r)
    {
      if PropAsks(ps[i], r) { AskedCanAsk(ps[i], r); }
    }
    hide PropAsks, CanAsk, MustAsk, Skipped;
  }

  /** When the query misses none of the records that the filter asks for. */
  lemma MissesNothingExactly(ps: seq<PropFilter>, allOf: bool)
    requires ps != [] && AllComplete(ps)
    ensures (forall r: Record :: FilterAsks(ps, allOf, r) ==> FirstPropsHold(ps, |ps|, allOf, r)) <==>
              SkipsLoseNothing(ps, allOf)
  {
    hide PropAsks, CanAsk, FirstPropsHold, CountedAsk, AllComplete;
    forall r: Record
      ensures SkipsLoseNothing(ps, allOf) && FilterAsks(ps, allOf, r) ==> FirstPropsHold(ps, |ps|, allOf, r)
    {
      CountedMean(ps, allOf, r);
      AskedPart(ps, r);
    }
    if !SkipsLoseNothing(ps, allOf) {
      var i :| 0 <= i < |ps| && Skipped(ps[i]) && CanAsk(ps[i]);
      var s: Record :| !FirstPropsHold(ps, |ps|, false, s);
      var r := AskedAnyway(ps[i], s.passes);
      SameFields(ps, false, r, s);
      assert FilterAsks(ps, false, r);
    }
  }

  /** When the query is exactly what the filter asks for. */
  lemma FilterMeans(ps: seq<PropFilter>, allOf: bool)
    requires ps != [] && AllExact(ps)
    ensures (forall r: Record :: FilterAsks(ps, allOf, r) <==> FirstPropsHold(ps, |ps|, allOf, r)) <==>
            SkipsLoseNothing(ps, allOf) && SkipsAddNothing(ps, allOf)
  {
    hide PropAsks, CanAsk, MustAsk, FirstPropsHold, CountedAsk, AllExact;
    ExactIsComplete(ps);
    MissesNothingExactly(ps, allOf);
    forall r: Record
      ensures SkipsAddNothing(ps, allOf) && FirstPropsHold(ps, |ps|, allOf, r) ==> FilterAsks(ps, allOf, r)
    {
      CountedMean(ps, allOf, r);
      AskedPart(ps, r);
    }
    if !SkipsAddNothing(ps, allOf) {
      var i :| 0 <= i < |ps| && Skipped(ps[i]) && !MustAsk(ps[i]);
      var s: Record :| FirstPropsHold(ps, |ps|, true, s);
      var r := LeftOutAnyway(ps[i], s.passes);
      SameFields(ps, true, r, s);
      assert !FilterAsks(ps, true, r);
    }
  }

  lemma ExactIsComplete(ps: seq<PropFilter>)
    requires AllExact(ps)
    ensures AllComplete(ps)
  {
  }

  /** Where only childless prop-filters are asked for together, or none at all, the query selects
      no record, and there are records asked for. */
  lemma ChildlessOnly(ps: seq<PropFilter>)
    requires forall i :: 0 <= i < |ps| ==> Children(ps[i]) == []
    ensures !SomeCount(ps) && exists r: Record :: FilterAsks(ps, true, r)
  {
    var r := Record(_ => true, _ => true, _ => true, (_, _) => None);
    forall i | 0 <= i < |ps| ensures PropAsks(ps[i], r) {
      if ps[i].fields != [] { assert r.defined(ps[i].fields[0]); }
    }
    assert FilterAsks(ps, true, r);
  }

  const HAS_EMAIL := PropFilter("EMAIL", ["emailAddresses"], map["TYPE" := {}], false, false, false, false, [])
  const NUMBER_HAS_555 :=
    PropFilter("TEL", [], map[], false, false, false, false, [TextMatch(["555"], false, 0, false)])
  const NAME_HAS_X :=
    PropFilter("FN", ["fullNames"], map[], false, true, false, false, [TextMatch(["x"], false, 0, false)])

  /** Records that have an email, or whose name contains "x": one that has an email and another
      name is missed. */
  lemma ChildlessIsMissed()
    ensures var ps := [HAS_EMAIL, NAME_HAS_X]; AllExact(ps) && AllComplete(ps) && !SkipsLoseNothing(ps, false)
  {
    OnlyLastCounts(HAS_EMAIL, NAME_HAS_X, "x");
  }

  /** Records with "555" in their telephone number, which has no field to search, or whose name
      contains "x": one with such a number and another name is missed. */
  lemma UnmappedIsMissed()
    ensures var ps := [NUMBER_HAS_555, NAME_HAS_X]; AllExact(ps) && AllComplete(ps) && !SkipsLoseNothing(ps, false)
  {
    assert Compatible(NUMBER_HAS_555, [NUMBER_HAS_555.filters[0]], NUMBER_HAS_555.filters[0]);
    OnlyLastCounts(NUMBER_HAS_555, NAME_HAS_X, "x");
  }

  lemma OnlyLastCounts(p: PropFilter, q: PropFilter, text: string)
    requires Skipped(p) && CanAsk(p)
    requires !q.isNotDefined && q.filters == [TextMatch([text], false, 0, false)] && q.fields != [] && !q.constant
    ensures AllExact([p, q]) && AllComplete([p, q]) && !SkipsLoseNothing([p, q], false)
  {
    var ps := [p, q];
    var none := Record(_ => false, _ => false, _ => false, (_, _) => None);
    assert Children(q) == q.filters && Children(q)[0] == TextMatch([text], false, 0, false);
    assert !ElementHolds(q, Children(q)[0], none);
    assert !PropHolds(q, none);
    assert ps[0] == p && ps[1] == q;
    assert !FirstPropsHold(ps, |ps|, false, none);
    assert !SkippedNeverAsk(ps);
  }

  // ----- One child -----

  /** The elements in some order, without repetitions. */
  method Deduplicated(s: seq<Query>) returns (d: seq<Query>)
    ensures SameParts(d, s)
    ensures forall i, j :: 0 <= i < j < |d| ==> d[i] != d[j]
    ensures s != [] ==> d != []
  {
    var todo := set q | q in s;
    d := [];
    while todo != {}
      invariant forall q :: q in todo ==> q in s
      invariant forall q :: q in s <==> q in todo || q in d
      invariant forall q :: q in d ==> q !in todo
      invariant forall i, j :: 0 <= i < j < |d| ==> d[i] != d[j]
      decreases |todo|
    {
      var q :| q in todo;
      todo := todo - {q};
      d := d + [q];
    }
    assert s != [] ==> s[0] in d;
  }

  /** The matches of one text are alternatives; where the parent will AND, they are wrapped. */
  method AndOrExpression(allOf: bool, matches: seq<Query>) returns (x: seq<Query>)
    requires matches != []
    ensures x != [] && NoDuplicates(x) && forall r: Record :: Joined(r, x, allOf) == Joined(r, matches, false)
  {
    var distinct := Deduplicated(matches);
    forall r: Record
      ensures Joined(r, distinct, false) == Joined(r, matches, false)
    {
      JoinedSame(r, distinct, matches, false);
    }
    if allOf && |distinct| > 1 {
      x := [Compound(distinct, OR)];
      forall r: Record
        ensures Joined(r, x, allOf) == Joined(r, distinct, false)
      {
        JoinedOne(r, x[0], allOf);
      }
    } else {
      x := distinct;
      forall r: Record
        ensures Joined(r, x, allOf) == Joined(r, distinct, false)
      {
        if allOf {
          assert distinct == [distinct[0]];
          JoinedOne(r, distinct[0], true);
          JoinedOne(r, distinct[0], false);
        }
      }
    }
  }

  function DefinedExpression(p: PropFilter, defined: bool): Exprs {
    if p.constant || p.always then if defined then Everything else Nothing else Everything
  }

  function FieldMatches(p: PropFilter, text: string, kind: nat, negate: bool): seq<Query> {
    seq(|p.fields|, i requires 0 <= i < |p.fields| => Basic(Match(Test(p.fields[i], text, kind), negate)))
  }

  /** The list of matches is made anew for every text, so that the last one counts; it is then
      extended by itself. */
  method MatchesOf(p: PropFilter, texts: seq<string>, kind: nat, negate: bool) returns (matches: seq<Query>)
    requires p.fields != [] && texts != []
    ensures matches != []
    ensures forall r: Record :: Joined(r, matches, false) == AnyFieldMatches(p, texts[|texts| - 1], kind, negate, r)
  {
    matches := [];
    ghost var one: seq<Query> := [];
    for k := 0 to |texts|
      invariant k > 0 ==> one == FieldMatches(p, texts[k - 1], kind, negate)
      invariant k > 0 ==> matches == one + one
    {
      matches := FieldMatches(p, texts[k], kind, negate);
      one := matches;
      matches := matches + matches;
    }
    forall r: Record
      ensures Joined(r, matches, false) == AnyFieldMatches(p, texts[|texts| - 1], kind, negate, r)
    {
      JoinedMore(r, one, one, false);
      AnyField(p, texts[|texts| - 1], kind, negate, one, r);
    }
  }

  lemma AnyField(p: PropFilter, text: string, kind: nat, negate: bool, one: seq<Query>, r: Record)
    requires one == FieldMatches(p, text, kind, negate)
    ensures Joined(r, one, false) == AnyFieldMatches(p, text, kind, negate, r)
  {
    if Joined(r, one, false) {
      var i :| 0 <= i < |one| && Satisfies(r, one[i]);
      assert r.passes(Test(p.fields[i], text, kind)) != negate;
    }
    if i :| 0 <= i < |p.fields| && r.passes(Test(p.fields[i], text, kind)) != negate {
      assert Satisfies(r, one[i]);
    }
  }

  method ParamFilterElement(p: PropFilter, param: string, test: ParamTest) returns (holds: bool)
    ensures holds == ParamHolds(p, param, test)
  {
    if p.params == map[] {
      return false;
    }
    var defined := param in p.params;
    if defined != !test.Absent? {
      return false;
    }
    if defined && test.HasText? {
      var values := p.params[param];
      if values != {} && test.text !in values {
        return false;
      }
    }
    holds := true;
  }

  method ElementExpression(p: PropFilter, allOf: bool, e: Element) returns (x: Exprs)
    requires Mapped(p)
    ensures !x.Ignore? && (x.List? ==> x.parts != [])
    ensures forall r: Record :: Value(x, allOf, r) == ElementHolds(p, e, r)
  {
    hide Joined;
    match e
    case ParamFilter(param, test) =>
      var holds := ParamFilterElement(p, param, test);
      x := if holds then Everything else Nothing;
    case TextMatch(texts, negate, kind, ofConstant) =>
      if p.constant {
        x := if ofConstant then Everything else Nothing;
      } else if texts == [] {
        x := DefinedExpression(p, !negate);
      } else {
        var matches := MatchesOf(p, texts, kind, negate);
        var parts := AndOrExpression(allOf, matches);
        x := List(parts);
      }
  }

  // ----- One prop-filter -----

  /** A join that is settled by its first parts is settled. */
  lemma SettledEarly(p: PropFilter, es: seq<Element>, n: nat, allOf: bool, r: Record)
    requires n <= |es| && FirstHold(p, es, n, allOf, r) == !allOf
    ensures FirstHold(p, es, |es|, allOf, r) == !allOf
  {
    hide ElementHolds;
  }

  lemma OneMoreElement(p: PropFilter, es: seq<Element>, n: nat, allOf: bool, r: Record)
    requires n < |es|
    ensures FirstHold(p, es, n + 1, allOf, r) == Join(allOf, FirstHold(p, es, n, allOf, r), ElementHolds(p, es[n], r))
  {
    hide ElementHolds;
  }

  /** With a single child, the test of the prop-filter does not matter. */
  lemma SingleElement(p: PropFilter, es: seq<Element>, a: bool, b: bool, r: Record)
    requires |es| == 1
    ensures FirstHold(p, es, 1, a, r) == FirstHold(p, es, 1, b, r)
  {
    hide ElementHolds;
    assert FirstHold(p, es, 1, a, r) == ElementHolds(p, es[0], r);
  }

  /** The loop over the children, with its early exit: it is left only when the matter is
      settled, although what it compares with the test is the last child's own result. */
  method ChildrenExpression(p: PropFilter, es: seq<Element>, allOf: bool) returns (x: Exprs)
    requires Mapped(p)
    ensures x.Ignore? <==> es == []
    ensures x.List? ==> x.parts != []
    ensures forall r: Record :: Value(x, allOf, r) == FirstHold(p, es, |es|, allOf, r)
  {
    hide Value, FirstHold, ElementHolds;
    x := Ignore;
    assert forall r: Record :: Value(x, allOf, r) == FirstHold(p, es, 0, allOf, r) by { NoElements(p, es, allOf); }
    var n := 0;
    while n < |es|
      invariant n <= |es|
      invariant x.Ignore? <==> n == 0
      invariant x.List? ==> x.parts != []
      invariant !Settled(x, allOf)
      invariant forall r: Record :: Value(x, allOf, r) == FirstHold(p, es, n, allOf, r)
    {
      var one := ElementExpression(p, allOf, es[n]);
      ghost var before := x;
      x := CombineExpressionLists(x, allOf, one);
      forall r: Record
        ensures Value(x, allOf, r) == FirstHold(p, es, n + 1, allOf, r)
      {
        CombineJoins(before, allOf, one, r);
        OneMoreElement(p, es, n, allOf, r);
      }
      if (x.Everything? || x.Nothing?) && one != (if allOf then Everything else Nothing) {
        assert Settled(x, allOf);
        forall r: Record
          ensures Value(x, allOf, r) == FirstHold(p, es, |es|, allOf, r)
        {
          SettledValue(x, allOf, r);
          SettledEarly(p, es, n + 1, allOf, r);
        }
        return;
      }
      n := n + 1;
    }
  }

  lemma NoElements(p: PropFilter, es: seq<Element>, allOf: bool)
    ensures forall r: Record :: Value(Ignore, allOf, r) == FirstHold(p, es, 0, allOf, r)
  {
    hide ElementHolds;
  }

  lemma SettledValue(x: Exprs, allOf: bool, r: Record)
    requires Settled(x, allOf)
    ensures Value(x, allOf, r) == !allOf
  {
  }

  /** A list is deduplicated, and wrapped if the parent's test is the other one. */
  method Wrapped(x: Exprs, allOf: bool, parentAllOf: bool) returns (w: Exprs)
    requires x.List? ==> x.parts != []
    ensures w.Ignore? == x.Ignore? && (w.List? ==> w.parts != [] && NoDuplicates(w.parts))
    ensures forall r: Record :: !x.Ignore? ==> Value(w, parentAllOf, r) == Value(x, allOf, r)
  {
    hide Joined;
    w := x;
    if x.List? {
      var parts := Deduplicated(x.parts);
      forall r: Record
        ensures Joined(r, parts, allOf) == Joined(r, x.parts, allOf)
      {
        JoinedSame(r, parts, x.parts, allOf);
      }
      if parentAllOf != allOf {
        var whole := Compound(parts, if allOf then AND else OR);
        forall r: Record
          ensures Joined(r, [whole], parentAllOf) == Joined(r, parts, allOf)
        {
          JoinedOne(r, whole, parentAllOf);
          JoinedIs(r, parts, allOf);
        }
        w := List([whole]);
      } else {
        w := List(parts);
      }
    }
  }

  lemma JoinedIs(r: Record, parts: seq<Query>, allOf: bool)
    ensures Joined(r, parts, allOf) == Satisfies(r, Compound(parts, if allOf then AND else OR))
  {
  }

  method PropFilterExpression(filterAllOf: bool, p: PropFilter) returns (x: Exprs)
    ensures x.Ignore? <==> Skipped(p)
    ensures x.List? ==> x.parts != []
    ensures forall r: Record :: !Skipped(p) ==> Value(x, filterAllOf, r) == PropHolds(p, r)
  {
    hide Value, FirstHold;
    if p.fields == [] && !p.constant {
      return Ignore;
    }
    var filters := if p.isNotDefined then p.filters + [NOT_DEFINED] else p.filters;
    var propAllOf := if |filters| == 1 then filterAllOf else p.allOf;
    var inner := ChildrenExpression(p, filters, propAllOf);
    x := Wrapped(inner, propAllOf, filterAllOf);
    forall r: Record | !Skipped(p)
      ensures Value(x, filterAllOf, r) == PropHolds(p, r)
    {
      if |filters| == 1 {
        SingleElement(p, filters, filterAllOf, p.allOf, r);
      }
    }
  }

  // ----- The whole filter -----

  /** A filter without prop-filters, or with none that counts, has the truth value that an
      empty filter is given; a query may be None if there is no filter at all. */
  datatype Answer = NoFilter | AllRecords | NoRecords | Search(q: Query)

  ghost predicate Selects(a: Answer, r: Record) {
    a.AllRecords? || (a.Search? && Satisfies(r, a.q))
  }

  lemma OneMoreProp(ps: seq<PropFilter>, n: nat, allOf: bool, r: Record)
    requires n < |ps|
    ensures FirstPropsHold(ps, n + 1, allOf, r) ==
      if Skipped(ps[n]) then FirstPropsHold(ps, n, allOf, r)
      else Join(allOf, FirstPropsHold(ps, n, allOf, r), PropHolds(ps[n], r))
  {
    hide PropHolds, Skipped;
  }

  lemma PropsSettled(ps: seq<PropFilter>, n: nat, allOf: bool, r: Record)
    requires n <= |ps| && FirstPropsHold(ps, n, allOf, r) == !allOf
    ensures FirstPropsHold(ps, |ps|, allOf, r) == !allOf
  {
    hide PropHolds, Skipped;
  }

  lemma NoProps(ps: seq<PropFilter>, allOf: bool)
    ensures forall r: Record :: Value(Ignore, allOf, r) == FirstPropsHold(ps, 0, allOf, r)
  {
    hide PropHolds;
  }

  method PropsExpression(filterAllOf: bool, ps: seq<PropFilter>) returns (x: Exprs)
    ensures x.Ignore? <==> forall i :: 0 <= i < |ps| ==> Skipped(ps[i])
    ensures x.List? ==> x.parts != []
    ensures forall r: Record :: Value(x, filterAllOf, r) == FirstPropsHold(ps, |ps|, filterAllOf, r)
  {
    hide Value, FirstPropsHold, PropHolds, Skipped;
    x := Ignore;
    NoProps(ps, filterAllOf);
    var n := 0;
    while n < |ps|
      invariant n <= |ps|
      invariant x.Ignore? <==> forall i :: 0 <= i < n ==> Skipped(ps[i])
      invariant x.List? ==> x.parts != []
      invariant forall r: Record :: Value(x, filterAllOf, r) == FirstPropsHold(ps, n, filterAllOf, r)
    {
      var one := PropFilterExpression(filterAllOf, ps[n]);
      ghost var before := x;
      x := CombineExpressionLists(x, filterAllOf, one);
      forall r: Record
        ensures Value(x, filterAllOf, r) == FirstPropsHold(ps, n + 1, filterAllOf, r)
      {
        CombineJoins(before, filterAllOf, one, r);
        OneMoreProp(ps, n, filterAllOf, r);
      }
      n := n + 1;
      if (x.Everything? && !filterAllOf) || (x.Nothing? && filterAllOf) {
        forall r: Record
          ensures Value(x, filterAllOf, r) == FirstPropsHold(ps, |ps|, filterAllOf, r)
        {
          SettledValue(x, filterAllOf, r);
          PropsSettled(ps, n, filterAllOf, r);
        }
        return;
      }
    }
  }

  method PropFilterListQuery(filterAllOf: bool, ps: seq<PropFilter>) returns (names: set<string>, a: Answer)
    ensures names == set i | 0 <= i < |ps| :: ps[i].name
    ensures !a.NoFilter?
    ensures (forall i :: 0 <= i < |ps| ==> Skipped(ps[i])) ==> a == if filterAllOf then NoRecords else AllRecords
    ensures (exists i :: 0 <= i < |ps| && !Skipped(ps[i])) ==>
      forall r: Record :: Selects(a, r) == FirstPropsHold(ps, |ps|, filterAllOf, r)
  {
    hide FirstPropsHold, Joined, Skipped;
    names := set i | 0 <= i < |ps| :: ps[i].name;
    var x := PropsExpression(filterAllOf, ps);
    match x
    case List(all) =>
      var parts := Deduplicated(all);
      forall r: Record
        ensures Joined(r, parts, filterAllOf) == Joined(r, all, filterAllOf)
      {
        JoinedSame(r, parts, all, filterAllOf);
      }
      a := Search(if |parts| > 1 then Compound(parts, if filterAllOf then AND else OR) else parts[0]);
      forall r: Record
        ensures Joined(r, parts, filterAllOf) == Satisfies(r, a.q)
      {
        JoinedIs(r, parts, filterAllOf);
        JoinedOne(r, parts[0], filterAllOf);
        assert |parts| == 1 ==> parts == [parts[0]];
      }
    case Ignore => a := if filterAllOf then NoRecords else AllRecords;
    case Everything => a := AllRecords;
    case Nothing => a := NoRecords;
  }

  datatype Filter = Filter(allOf: bool, children: seq<PropFilter>)

  /** If some prop-filter counts, the query selects the records for which the matches made for
      those that count hold; if none does, it selects all records where the test is anyof and
      none where it is allof, the opposite of an empty join. Whether that is what the filter asks
      for depends on its children and on the prop-filters it skips. */
  method ExpressionFromABFilter(f: Option<Filter>) returns (names: set<string>, a: Answer)
    ensures a.NoFilter? <==> f.None?
    ensures f.Some? ==> var ps := f.value.children;
      && names == (set i | 0 <= i < |ps| :: ps[i].name)
      && (SomeCount(ps) <==> forall r: Record :: Selects(a, r) == FirstPropsHold(ps, |ps|, f.value.allOf, r))
      && (!SomeCount(ps) ==> a == if f.value.allOf then NoRecords else AllRecords)
      && (SomeCount(ps) && AllExact(ps) ==>
            ((forall r: Record :: Selects(a, r) == FilterAsks(ps, f.value.allOf, r)) <==>
             SkipsLoseNothing(ps, f.value.allOf) && SkipsAddNothing(ps, f.value.allOf)))
      && (SomeCount(ps) && AllComplete(ps) ==>
            ((forall r: Record :: FilterAsks(ps, f.value.allOf, r) ==> Selects(a, r)) <==>
             SkipsLoseNothing(ps, f.value.allOf)))
  {
    hide Skipped, PropHolds, AllExact, AllComplete, FilterAsks, SkipsLoseNothing, SkipsAddNothing, FirstPropsHold;
    names, a := {}, NoFilter;
    if f.Some? {
      var ps := f.value.children;
      if ps != [] {
        names, a := PropFilterListQuery(f.value.allOf, ps);
      } else {
        a := if f.value.allOf then NoRecords else AllRecords;
      }
      if SomeCount(ps) {
        if AllExact(ps) { FilterMeans(ps, f.value.allOf); }
        if AllComplete(ps) { MissesNothingExactly(ps, f.value.allOf); }
      } else {
        ghost var any := Record(_ => true, _ => true, _ => true, (_, _) => None);
        NoneCount(ps, f.value.allOf, any);
        assert Selects(a, any) != FirstPropsHold(ps, |ps|, f.value.allOf, any);
      }
    }
  }

  lemma NoneCount(ps: seq<PropFilter>, allOf: bool, r: Record)
    requires !SomeCount(ps)
    ensures FirstPropsHold(ps, |ps|, allOf, r) == allOf
  {
  }
}
