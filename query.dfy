/** The query builder of the document store service: optional filter
    arguments become a `bool` query of `must`, `filter` and `must_not`
    clauses. */
module Query {
  import opened Wrappers
  import opened Values

  /** One leaf clause of the store's query language. */
  datatype Clause =
    | Match(field: string, text: string)
    | Terms(field: string, values: seq<string>)
    | MatchAll
    | Term(field: string, value: Value)
    | Exists(field: string)
    | Range(field: string, bounds: seq<(string, Value)>)
    | Script(source: string)

  /** `{"bool": {"must": ..., "filter": ..., "must_not": ...}}`. */
  datatype BoolQuery = BoolQuery(must: seq<Clause>, filter: seq<Clause>, mustNot: seq<Clause>)

  /** The keyword arguments of the builder; each is optional. Python dicts
      are association lists in insertion order. */
  datatype QueryArgs = QueryArgs(
    queryText: Option<string>,
    searchTerms: Option<seq<string>>,
    termFilters: Option<seq<(string, Value)>>,
    existsFilters: Option<seq<string>>,
    notExistsFilters: Option<seq<string>>,
    termsFilters: Option<seq<(string, seq<string>)>>,
    rangeFilters: Option<seq<(string, seq<(string, Value)>)>>,
    scriptFilters: Option<seq<string>>)

  /** The call with no arguments. */
  const NoArgs := QueryArgs(None, None, None, None, None, None, None, None)

  /** An absent list or dict iterates like an empty one. */
  function OrEmpty<T>(o: Option<seq<T>>): seq<T>
  {
    match o
    case None => []
    case Some(xs) => xs
  }

  predicate TextGiven(o: Option<string>)
  {
    o.Some? && o.value != ""
  }

  predicate TermsGiven(o: Option<seq<string>>)
  {
    o.Some? && o.value != []
  }

  /** Element-wise image of a sequence. */
  function MapSeq<A, B>(f: A -> B, xs: seq<A>): seq<B>
  {
    seq(|xs|, i requires 0 <= i < |xs| => f(xs[i]))
  }

  lemma MapSeqAt<A, B>(f: A -> B, xs: seq<A>)
    ensures |MapSeq(f, xs)| == |xs|
    ensures forall i :: 0 <= i < |xs| ==> MapSeq(f, xs)[i] == f(xs[i])
  {
  }

  lemma MapSeqSnoc<A, B>(f: A -> B, xs: seq<A>, x: A)
    ensures MapSeq(f, xs + [x]) == MapSeq(f, xs) + [f(x)]
  {
    assert forall i :: 0 <= i < |xs| ==> (xs + [x])[i] == xs[i];
  }

  function TermClause(p: (string, Value)): Clause { Term(p.0, p.1) }
  function ExistsClause(f: string): Clause { Exists(f) }
  function TermsClause(p: (string, seq<string>)): Clause { Terms(p.0, p.1) }
  function RangeClause(p: (string, seq<(string, Value)>)): Clause { Range(p.0, p.1) }
  function ScriptClause(s: string): Clause { Script(s) }

  /** The single text clause: `match` if there is query text, else `terms`
      if there are search terms, else `match_all`. */
  function MustClause(args: QueryArgs): Clause
  {
    if TextGiven(args.queryText) then Match("text", args.queryText.value)
    else if TermsGiven(args.searchTerms) then Terms("text", args.searchTerms.value)
    else MatchAll
  }

  /** The `filter` list, category by category. */
  function FilterClauses(args: QueryArgs): seq<Clause>
  {
    MapSeq(TermClause, OrEmpty(args.termFilters))
    + MapSeq(ExistsClause, OrEmpty(args.existsFilters))
    + MapSeq(TermsClause, OrEmpty(args.termsFilters))
    + MapSeq(RangeClause, OrEmpty(args.rangeFilters))
    + MapSeq(ScriptClause, OrEmpty(args.scriptFilters))
  }

  /** The query `_build_query` returns, as a value that functions can use. */
  function QueryOf(args: QueryArgs): BoolQuery
  {
    BoolQuery([MustClause(args)], FilterClauses(args), MapSeq(ExistsClause, OrEmpty(args.notExistsFilters)))
  }

  /** `_build_query`: appends to three lists, one loop per filter category. */
  method BuildQuery(args: QueryArgs) returns (q: BoolQuery)
    ensures q == QueryOf(args)
  {
    var must: seq<Clause> := [];
    var filter: seq<Clause> := [];
    var mustNot: seq<Clause> := [];

    if TextGiven(args.queryText) {
      must := must + [Match("text", args.queryText.value)];
    } else if TermsGiven(args.searchTerms) {
      must := must + [Terms("text", args.searchTerms.value)];
    } else {
      must := must + [MatchAll];
    }

    var tf := OrEmpty(args.termFilters);
    for i := 0 to |tf|
      invariant filter == MapSeq(TermClause, tf[..i])
    {
      assert MapSeq(TermClause, tf[..i + 1]) == MapSeq(TermClause, tf[..i]) + [Term(tf[i].0, tf[i].1)] by {
        assert tf[..i + 1] == tf[..i] + [tf[i]];
        MapSeqSnoc(TermClause, tf[..i], tf[i]);
      }
      filter := filter + [Term(tf[i].0, tf[i].1)];
    }
    assert tf[..|tf|] == tf;
    ghost var done1 := filter;

    var ef := OrEmpty(args.existsFilters);
    for i := 0 to |ef|
      invariant filter == done1 + MapSeq(ExistsClause, ef[..i])
    {
      assert MapSeq(ExistsClause, ef[..i + 1]) == MapSeq(ExistsClause, ef[..i]) + [Exists(ef[i])] by {
        assert ef[..i + 1] == ef[..i] + [ef[i]];
        MapSeqSnoc(ExistsClause, ef[..i], ef[i]);
      }
      filter := filter + [Exists(ef[i])];
    }
    assert ef[..|ef|] == ef;
    ghost var done2 := filter;

    var nf := OrEmpty(args.notExistsFilters);
    for i := 0 to |nf|
      invariant mustNot == MapSeq(ExistsClause, nf[..i])
    {
      assert MapSeq(ExistsClause, nf[..i + 1]) == MapSeq(ExistsClause, nf[..i]) + [Exists(nf[i])] by {
        assert nf[..i + 1] == nf[..i] + [nf[i]];
        MapSeqSnoc(ExistsClause, nf[..i], nf[i]);
      }
      mustNot := mustNot + [Exists(nf[i])];
    }
    assert nf[..|nf|] == nf;

    var sf := OrEmpty(args.termsFilters);
    for i := 0 to |sf|
      invariant filter == done2 + MapSeq(TermsClause, sf[..i])
    {
      assert MapSeq(TermsClause, sf[..i + 1]) == MapSeq(TermsClause, sf[..i]) + [Terms(sf[i].0, sf[i].1)] by {
        assert sf[..i + 1] == sf[..i] + [sf[i]];
        MapSeqSnoc(TermsClause, sf[..i], sf[i]);
      }
      filter := filter + [Terms(sf[i].0, sf[i].1)];
    }
    assert sf[..|sf|] == sf;
    ghost var done3 := filter;

    var rf := OrEmpty(args.rangeFilters);
    for i := 0 to |rf|
      invariant filter == done3 + MapSeq(RangeClause, rf[..i])
    {
      assert MapSeq(RangeClause, rf[..i + 1]) == MapSeq(RangeClause, rf[..i]) + [Range(rf[i].0, rf[i].1)] by {
        assert rf[..i + 1] == rf[..i] + [rf[i]];
        MapSeqSnoc(RangeClause, rf[..i], rf[i]);
      }
      filter := filter + [Range(rf[i].0, rf[i].1)];
    }
    assert rf[..|rf|] == rf;
    ghost var done4 := filter;

    var xf := OrEmpty(args.scriptFilters);
    for i := 0 to |xf|
      invariant filter == done4 + MapSeq(ScriptClause, xf[..i])
    {
      assert MapSeq(ScriptClause, xf[..i + 1]) == MapSeq(ScriptClause, xf[..i]) + [Script(xf[i])] by {
        assert xf[..i + 1] == xf[..i] + [xf[i]];
        MapSeqSnoc(ScriptClause, xf[..i], xf[i]);
      }
      filter := filter + [Script(xf[i])];
    }
    assert xf[..|xf|] == xf;

    q := BoolQuery(must, filter, mustNot);
  }

  /** Exactly one `must` clause, chosen by the text arguments. */
  lemma MustIsSingleTextClause(args: QueryArgs)
    ensures |QueryOf(args).must| == 1
    ensures TextGiven(args.queryText) ==> QueryOf(args).must[0] == Match("text", args.queryText.value)
    ensures !TextGiven(args.queryText) && TermsGiven(args.searchTerms) ==>
              QueryOf(args).must[0] == Terms("text", args.searchTerms.value)
    ensures !TextGiven(args.queryText) && !TermsGiven(args.searchTerms) ==> QueryOf(args).must[0] == MatchAll
  {
  }

  /** `must_not` is one `exists` clause per `not_exists_filters` field, in
      input order, and nothing else. */
  lemma MustNotIsNotExists(args: QueryArgs)
    ensures |QueryOf(args).mustNot| == |OrEmpty(args.notExistsFilters)|
    ensures forall i :: 0 <= i < |OrEmpty(args.notExistsFilters)| ==>
              QueryOf(args).mustNot[i] == Exists(OrEmpty(args.notExistsFilters)[i])
  {
    MapSeqAt(ExistsClause, OrEmpty(args.notExistsFilters));
  }

  /** The clauses of one category sit in `f` from `offset` on, in input order. */
  predicate Placed<A>(f: seq<Clause>, offset: nat, F: A -> Clause, xs: seq<A>)
  {
    offset + |xs| <= |f| && forall i :: 0 <= i < |xs| ==> f[offset + i] == F(xs[i])
  }

  /** The `filter` list holds the term, exists, terms, range and script
      clauses in that category order, each category in input order. */
  lemma FilterLayout(args: QueryArgs)
    ensures var t, e, s, r, x := OrEmpty(args.termFilters), OrEmpty(args.existsFilters),
                                 OrEmpty(args.termsFilters), OrEmpty(args.rangeFilters),
                                 OrEmpty(args.scriptFilters);
            var f := QueryOf(args).filter;
            && |f| == |t| + |e| + |s| + |r| + |x|
            && Placed(f, 0, TermClause, t)
            && Placed(f, |t|, ExistsClause, e)
            && Placed(f, |t| + |e|, TermsClause, s)
            && Placed(f, |t| + |e| + |s|, RangeClause, r)
            && Placed(f, |t| + |e| + |s| + |r|, ScriptClause, x)
  {
    var t, e, s, r, x := OrEmpty(args.termFilters), OrEmpty(args.existsFilters),
                         OrEmpty(args.termsFilters), OrEmpty(args.rangeFilters),
                         OrEmpty(args.scriptFilters);
    var T, E, S, R, X := MapSeq(TermClause, t), MapSeq(ExistsClause, e), MapSeq(TermsClause, s),
                         MapSeq(RangeClause, r), MapSeq(ScriptClause, x);
    assert QueryOf(args).filter == T + E + S + R + X;
    ConcatFiveAt(T, E, S, R, X);
  }

  /** Where the parts of a five-part concatenation sit. */
  lemma ConcatFiveAt<T>(a: seq<T>, b: seq<T>, c: seq<T>, d: seq<T>, e: seq<T>)
    ensures var f := a + b + c + d + e;
      && |f| == |a| + |b| + |c| + |d| + |e|
      && (forall i :: 0 <= i < |a| ==> f[i] == a[i])
      && (forall i :: 0 <= i < |b| ==> f[|a| + i] == b[i])
      && (forall i :: 0 <= i < |c| ==> f[|a| + |b| + i] == c[i])
      && (forall i :: 0 <= i < |d| ==> f[|a| + |b| + |c| + i] == d[i])
      && (forall i :: 0 <= i < |e| ==> f[|a| + |b| + |c| + |d| + i] == e[i])
  {
  }

  /** With no arguments the query is `bool{must: [match_all], filter: [], must_not: []}`. */
  lemma NoArgsQuery()
    ensures QueryOf(NoArgs) == BoolQuery([MatchAll], [], [])
  {
  }

  // ----- What a query selects in the model of the store -----

  /** Whether a clause holds of a document. `match_all` and `exists` are
      interpreted here; the store's text analysis, term matching, range
      comparison and script engine are the uninterpreted `leaf`. */
  predicate Holds(c: Clause, d: Document, leaf: (Clause, Document) -> bool)
  {
    match c
    case MatchAll => true
    case Exists(f) => f in d && Indexable(d[f])
    case _ => leaf(c, d)
  }

  /** A `bool` query: every `must` and `filter` clause holds and no
      `must_not` clause does. */
  predicate Satisfies(q: BoolQuery, d: Document, leaf: (Clause, Document) -> bool)
  {
    && (forall i :: 0 <= i < |q.must| ==> Holds(q.must[i], d, leaf))
    && (forall i :: 0 <= i < |q.filter| ==> Holds(q.filter[i], d, leaf))
    && (forall i :: 0 <= i < |q.mustNot| ==> !Holds(q.mustNot[i], d, leaf))
  }

  /** A document that carries an indexed value for a `not_exists_filters`
      field is never selected. */
  lemma NotExistsExcludes(args: QueryArgs, d: Document, leaf: (Clause, Document) -> bool, f: string)
    requires f in OrEmpty(args.notExistsFilters)
    requires f in d && Indexable(d[f])
    ensures !Satisfies(QueryOf(args), d, leaf)
  {
    var nf := OrEmpty(args.notExistsFilters);
    var k :| 0 <= k < |nf| && nf[k] == f;
    MustNotIsNotExists(args);
    assert !Holds(QueryOf(args).mustNot[k], d, leaf) == false;
  }
}
