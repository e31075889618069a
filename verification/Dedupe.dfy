/** Exact duplicates of documents get one source ID, and every query keeps its texts and its evidence. The digest of a
    text, by which the program groups documents, is taken to stand for the text. */
module Dedupe {
  import opened Wrappers
  import opened Ordering
  import opened Counting
  import opened Contracts

  datatype Fact = Fact(id: string, sentence: Option<string>)
  datatype Paragraph = Paragraph(documentId: string, title: string, text: string, facts: seq<Fact>)
  datatype SourceQuery = SourceQuery(source: Source, id: string, question: string, paragraphs: seq<Paragraph>)

  // A document of a namespace is known by its text; its name is a source ID and a title.
  type Key = (string, string)
  type Name = (string, string)

  function Namespace(source: Source): string {
    match source
    case Nq => "dpr_nq"
    case HotpotBridge => "hotpotqa"
    case HotpotComparison => "hotpotqa"
    case Musique => "musique"
  }

  /** Only the two kinds of HotpotQA queries share their documents. */
  lemma {:induction false} SharedNamespaceIff(a: Source, b: Source)
    ensures Namespace(a) == Namespace(b) <==> a == b || (a != Nq && a != Musique && b != Nq && b != Musique)
  {
    match a {
      case Nq => assert Namespace(a)[0] == 'd';
      case HotpotBridge => assert Namespace(a)[0] == 'h';
      case HotpotComparison => assert Namespace(a)[0] == 'h';
      case Musique => assert Namespace(a)[0] == 'm';
    }
    match b {
      case Nq => assert Namespace(b)[0] == 'd';
      case HotpotBridge => assert Namespace(b)[0] == 'h';
      case HotpotComparison => assert Namespace(b)[0] == 'h';
      case Musique => assert Namespace(b)[0] == 'm';
    }
  }

  predicate NameLe(a: Name, b: Name) {
    if a.0 == b.0 then StringLe(a.1, b.1) else StringLe(a.0, b.0)
  }

  lemma {:induction false} NameLeIsTotal()
    ensures TotalPreorder(NameLe) && Antisymmetric(NameLe)
  {
    StringLeIsTotalOrder();
  }

  // The key by which facts are sorted.
  predicate FactLe(a: Fact, b: Fact) {
    var x, y := SentenceText(a), SentenceText(b);
    if a.id == b.id then StringLe(x, y) else StringLe(a.id, b.id)
  }

  function SentenceText(fact: Fact): string {
    if fact.sentence.Some? then fact.sentence.value else ""
  }

  lemma {:induction false} FactLeIsTotal()
    ensures TotalPreorder(FactLe)
  {
    StringLeIsTotalOrder();
  }

  /******* Representatives *******/

  function NameOf(p: Paragraph): Name {
    (p.documentId, p.title)
  }

  // The names under which a document occurs in a list of paragraphs of its namespace.
  function NamesIn(paragraphs: seq<Paragraph>, text: string): seq<Name> {
    if paragraphs == [] then []
    else
      var last := paragraphs[|paragraphs| - 1];
      var before := NamesIn(paragraphs[..|paragraphs| - 1], text);
      if last.text == text then before + [NameOf(last)] else before
  }

  // The names under which it occurs in the queries.
  function Names(queries: seq<SourceQuery>, key: Key): seq<Name> {
    if queries == [] then []
    else
      var last := queries[|queries| - 1];
      var before := Names(queries[..|queries| - 1], key);
      if Namespace(last.source) == key.0 then before + NamesIn(last.paragraphs, key.1) else before
  }

  // Python's min.
  function LeastName(names: seq<Name>): Name
    requires names != []
  {
    if |names| == 1 then names[0]
    else
      var before, last := LeastName(names[..|names| - 1]), names[|names| - 1];
      if NameLe(before, last) then before else last
  }

  lemma {:induction false} LeastNameIs(names: seq<Name>)
    requires names != []
    ensures LeastName(names) in names && forall name :: name in names ==> NameLe(LeastName(names), name)
    decreases |names|
  {
    NameLeIsTotal();
    if |names| > 1 {
      var init := names[..|names| - 1];
      LeastNameIs(init);
      assert names == init + [names[|names| - 1]];
    }
  }

  lemma {:induction false} LeastOfSameNames(a: seq<Name>, b: seq<Name>)
    requires a != [] && b != [] && forall name :: name in a <==> name in b
    ensures LeastName(a) == LeastName(b)
  {
    NameLeIsTotal();
    LeastNameIs(a);
    LeastNameIs(b);
  }

  type Reps = map<Key, Name>

  ghost predicate AreReps(queries: seq<SourceQuery>, reps: Reps) {
    && (forall key :: key in reps <==> Names(queries, key) != [])
    && (forall key :: key in reps ==> reps[key] == LeastName(Names(queries, key)))
  }

  // The queries say that this document of this namespace has this name.
  ghost predicate Occurs(queries: seq<SourceQuery>, key: Key, name: Name) {
    exists query :: query in queries && OccursIn(query, key, name)
  }

  ghost predicate OccursIn(query: SourceQuery, key: Key, name: Name) {
    Namespace(query.source) == key.0 && exists j :: 0 <= j < |query.paragraphs| && query.paragraphs[j].text == key.1
                                                    && NameOf(query.paragraphs[j]) == name
  }

  lemma {:induction false} NamesInMeans(paragraphs: seq<Paragraph>, text: string, name: Name)
    ensures name in NamesIn(paragraphs, text)
            <==> exists j :: 0 <= j < |paragraphs| && paragraphs[j].text == text && NameOf(paragraphs[j]) == name
    decreases |paragraphs|
  {
    if paragraphs != [] {
      var init := paragraphs[..|paragraphs| - 1];
      NamesInMeans(init, text, name);
      assert forall j :: 0 <= j < |init| ==> init[j] == paragraphs[j];
    }
  }

  lemma {:induction false} NamesMeans(queries: seq<SourceQuery>, key: Key, name: Name)
    ensures name in Names(queries, key) <==> Occurs(queries, key, name)
    decreases |queries|
  {
    if queries != [] {
      var init, last := queries[..|queries| - 1], queries[|queries| - 1];
      NamesMeans(init, key, name);
      NamesNext(queries, key, name);
      OccursNext(init, last, key, name);
      assert queries == init + [last];
    }
  }

  lemma {:induction false} NamesNext(queries: seq<SourceQuery>, key: Key, name: Name)
    requires queries != []
    ensures name in Names(queries, key)
            <==> name in Names(queries[..|queries| - 1], key) || OccursIn(queries[|queries| - 1], key, name)
  {
    NamesInMeans(queries[|queries| - 1].paragraphs, key.1, name);
  }

  lemma {:induction false} OccursNext(queries: seq<SourceQuery>, last: SourceQuery, key: Key, name: Name)
    ensures Occurs(queries + [last], key, name) <==> Occurs(queries, key, name) || OccursIn(last, key, name)
  {
    var all := queries + [last];
    assert last in all;
    forall query | query in queries ensures query in all {
    }
  }

  /** Representatives do not depend on the order of the queries. */
  lemma {:induction false} RepsIgnoreOrder(queries: seq<SourceQuery>, others: seq<SourceQuery>, reps: Reps,
                                           otherReps: Reps)
    requires multiset(queries) == multiset(others) && AreReps(queries, reps) && AreReps(others, otherReps)
    ensures reps == otherReps
  {
    forall key ensures SameNames(queries, others, key) {
      forall name ensures name in Names(queries, key) <==> name in Names(others, key) {
        NamesMeans(queries, key, name);
        NamesMeans(others, key, name);
        OccursInPermutation(queries, others, key, name);
      }
    }
    forall key ensures key in reps <==> key in otherReps {
      assert SameNames(queries, others, key);
      assert Names(queries, key) != [] <==> Names(others, key) != [] by {
        if Names(queries, key) != [] {
          assert Names(queries, key)[0] in Names(others, key);
        }
        if Names(others, key) != [] {
          assert Names(others, key)[0] in Names(queries, key);
        }
      }
    }
    forall key | key in reps ensures reps[key] == otherReps[key] {
      assert SameNames(queries, others, key);
      LeastOfSameNames(Names(queries, key), Names(others, key));
    }
  }

  ghost predicate SameNames(queries: seq<SourceQuery>, others: seq<SourceQuery>, key: Key) {
    forall name :: name in Names(queries, key) <==> name in Names(others, key)
  }

  lemma {:induction false} OccursInPermutation(queries: seq<SourceQuery>, others: seq<SourceQuery>, key: Key,
                                               name: Name)
    requires multiset(queries) == multiset(others)
    ensures Occurs(queries, key, name) <==> Occurs(others, key, name)
  {
    assert forall query :: query in queries <==> query in multiset(queries);
    assert forall query :: query in others <==> query in multiset(others);
  }

  /******* One query *******/

  // The source ID and the title that a paragraph gets.
  function IdIn(reps: Reps, namespace: string): Paragraph -> string {
    (p: Paragraph) => if (namespace, p.text) in reps then reps[(namespace, p.text)].0 else p.documentId
  }

  function TitleIn(reps: Reps, namespace: string): Paragraph -> string {
    (p: Paragraph) => if (namespace, p.text) in reps then reps[(namespace, p.text)].1 else p.title
  }

  // Of the paragraphs that get an ID: the last one, and all their facts.
  function LastAt(reps: Reps, namespace: string, paragraphs: seq<Paragraph>, id: string): Option<Paragraph> {
    if paragraphs == [] then None
    else if IdIn(reps, namespace)(paragraphs[|paragraphs| - 1]) == id then Some(paragraphs[|paragraphs| - 1])
    else LastAt(reps, namespace, paragraphs[..|paragraphs| - 1], id)
  }

  function FactsAt(reps: Reps, namespace: string, paragraphs: seq<Paragraph>, id: string): seq<Fact> {
    if paragraphs == [] then []
    else
      var last := paragraphs[|paragraphs| - 1];
      var before := FactsAt(reps, namespace, paragraphs[..|paragraphs| - 1], id);
      if IdIn(reps, namespace)(last) == id then before + last.facts else before
  }

  function SortedFacts(facts: seq<Fact>): seq<Fact> {
    Sort(FactLe, Dedup(facts))
  }

  function Merge(reps: Reps, namespace: string, paragraphs: seq<Paragraph>): string -> Paragraph {
    (id: string) =>
      var last := LastAt(reps, namespace, paragraphs, id);
      if last == None then Paragraph(id, "", "", [])
      else Paragraph(id, TitleIn(reps, namespace)(last.value), last.value.text,
                     SortedFacts(FactsAt(reps, namespace, paragraphs, id)))
  }

  function MergedIds(reps: Reps, namespace: string, paragraphs: seq<Paragraph>): seq<string> {
    Sort(StringLe, Dedup(Map(IdIn(reps, namespace), paragraphs)))
  }

  function NormalizeParagraphs(reps: Reps, namespace: string, paragraphs: seq<Paragraph>): seq<Paragraph> {
    Map(Merge(reps, namespace, paragraphs), MergedIds(reps, namespace, paragraphs))
  }

  function NormalizeQuery(reps: Reps): SourceQuery -> SourceQuery {
    (query: SourceQuery) => query.(paragraphs := NormalizeParagraphs(reps, Namespace(query.source), query.paragraphs))
  }

  ghost predicate AreKnown(reps: Reps, namespace: string, paragraphs: seq<Paragraph>) {
    forall p :: p in paragraphs ==> (namespace, p.text) in reps
  }

  lemma {:induction false} LastAtMeans(reps: Reps, namespace: string, paragraphs: seq<Paragraph>, id: string)
    ensures var last := LastAt(reps, namespace, paragraphs, id);
            && (last == None <==> forall p :: p in paragraphs ==> IdIn(reps, namespace)(p) != id)
            && (last.Some? ==> last.value in paragraphs && IdIn(reps, namespace)(last.value) == id)
    decreases |paragraphs|
  {
    if paragraphs != [] {
      var init, last := paragraphs[..|paragraphs| - 1], paragraphs[|paragraphs| - 1];
      LastAtMeans(reps, namespace, init, id);
      assert paragraphs == init + [last];
    }
  }

  lemma {:induction false} FactsAtMeans(reps: Reps, namespace: string, paragraphs: seq<Paragraph>, id: string,
                                        fact: Fact)
    ensures fact in FactsAt(reps, namespace, paragraphs, id)
            <==> exists p :: p in paragraphs && IdIn(reps, namespace)(p) == id && fact in p.facts
    decreases |paragraphs|
  {
    if paragraphs != [] {
      var init, last := paragraphs[..|paragraphs| - 1], paragraphs[|paragraphs| - 1];
      FactsAtMeans(reps, namespace, init, id, fact);
      assert paragraphs == init + [last];
      assert last in paragraphs;
    }
  }

  lemma {:induction false} InSortedFacts(facts: seq<Fact>, fact: Fact)
    ensures fact in SortedFacts(facts) <==> fact in facts
  {
    InSort(FactLe, Dedup(facts));
    InDedup(facts, fact);
  }

  lemma {:induction false} MergedIdsMean(reps: Reps, namespace: string, paragraphs: seq<Paragraph>, id: string)
    ensures id in MergedIds(reps, namespace, paragraphs)
            <==> exists p :: p in paragraphs && IdIn(reps, namespace)(p) == id
  {
    var ids := Map(IdIn(reps, namespace), paragraphs);
    InSort(StringLe, Dedup(ids));
    InDedup(ids, id);
    if exists p :: p in paragraphs && IdIn(reps, namespace)(p) == id {
      var p :| p in paragraphs && IdIn(reps, namespace)(p) == id;
      var i :| 0 <= i < |paragraphs| && paragraphs[i] == p;
      assert ids[i] == id;
    }
  }

  // Every paragraph has its place in the result.
  lemma {:induction false} MergedInto(reps: Reps, namespace: string, paragraphs: seq<Paragraph>, p: Paragraph)
    requires p in paragraphs
    ensures Merge(reps, namespace, paragraphs)(IdIn(reps, namespace)(p))
            in NormalizeParagraphs(reps, namespace, paragraphs)
  {
    var id, ids := IdIn(reps, namespace)(p), MergedIds(reps, namespace, paragraphs);
    MergedIdsMean(reps, namespace, paragraphs, id);
    var i :| 0 <= i < |ids| && ids[i] == id;
    assert NormalizeParagraphs(reps, namespace, paragraphs)[i] == Merge(reps, namespace, paragraphs)(id);
  }

  // Every result comes from the last of the paragraphs that were merged into it.
  lemma {:induction false} MergedFrom(reps: Reps, namespace: string, paragraphs: seq<Paragraph>, o: Paragraph)
    returns (last: Paragraph)
    requires o in NormalizeParagraphs(reps, namespace, paragraphs)
    ensures o == Merge(reps, namespace, paragraphs)(o.documentId)
    ensures last in paragraphs && IdIn(reps, namespace)(last) == o.documentId && o.text == last.text
            && o.title == TitleIn(reps, namespace)(last)
  {
    var ids := MergedIds(reps, namespace, paragraphs);
    var i :| 0 <= i < |ids| && NormalizeParagraphs(reps, namespace, paragraphs)[i] == o;
    MergedIdsMean(reps, namespace, paragraphs, ids[i]);
    LastAtMeans(reps, namespace, paragraphs, ids[i]);
    last := LastAt(reps, namespace, paragraphs, ids[i]).value;
  }

  ghost predicate HasText(paragraphs: seq<Paragraph>, text: string) {
    exists p :: p in paragraphs && p.text == text
  }

  // No two documents of the query get the same ID.
  ghost predicate HasNoCollision(reps: Reps, namespace: string, paragraphs: seq<Paragraph>) {
    forall p, q :: p in paragraphs && q in paragraphs && IdIn(reps, namespace)(p) == IdIn(reps, namespace)(q)
                   ==> p.text == q.text
  }

  ghost predicate SameTexts(a: seq<Paragraph>, b: seq<Paragraph>) {
    forall text :: HasText(a, text) <==> HasText(b, text)
  }

  lemma {:induction false} LostText(reps: Reps, namespace: string, paragraphs: seq<Paragraph>, p: Paragraph)
    requires AreKnown(reps, namespace, paragraphs) && p in paragraphs
    requires HasText(NormalizeParagraphs(reps, namespace, paragraphs), p.text)
    ensures Merge(reps, namespace, paragraphs)(IdIn(reps, namespace)(p)).text == p.text
  {
    var o :| o in NormalizeParagraphs(reps, namespace, paragraphs) && o.text == p.text;
    var last := MergedFrom(reps, namespace, paragraphs, o);
    assert IdIn(reps, namespace)(last) == IdIn(reps, namespace)(p);
  }

  /** Main result: a query keeps its set of texts exactly when no two of them get the same source ID. */
  lemma {:induction false} TextsAreKeptIff(reps: Reps, namespace: string, paragraphs: seq<Paragraph>)
    requires AreKnown(reps, namespace, paragraphs)
    ensures SameTexts(NormalizeParagraphs(reps, namespace, paragraphs), paragraphs)
            <==> HasNoCollision(reps, namespace, paragraphs)
  {
    var result := NormalizeParagraphs(reps, namespace, paragraphs);
    if HasNoCollision(reps, namespace, paragraphs) {
      forall text ensures HasText(result, text) <==> HasText(paragraphs, text) {
        if HasText(result, text) {
          var o :| o in result && o.text == text;
          var last := MergedFrom(reps, namespace, paragraphs, o);
        }
        if HasText(paragraphs, text) {
          var p :| p in paragraphs && p.text == text;
          MergedInto(reps, namespace, paragraphs, p);
          var last := MergedFrom(reps, namespace, paragraphs,
                                 Merge(reps, namespace, paragraphs)(IdIn(reps, namespace)(p)));
        }
      }
    }
    if SameTexts(result, paragraphs) {
      forall p, q | p in paragraphs && q in paragraphs && IdIn(reps, namespace)(p) == IdIn(reps, namespace)(q)
        ensures p.text == q.text {
        assert HasText(paragraphs, p.text) && HasText(paragraphs, q.text);
        LostText(reps, namespace, paragraphs, p);
        LostText(reps, namespace, paragraphs, q);
      }
    }
  }

  /** The merged document of a text has exactly the facts that the query had for that text. */
  lemma {:induction false} FactsAreKept(reps: Reps, namespace: string, paragraphs: seq<Paragraph>, p: Paragraph,
                                        fact: Fact)
    requires AreKnown(reps, namespace, paragraphs) && HasNoCollision(reps, namespace, paragraphs) && p in paragraphs
    ensures fact in Merge(reps, namespace, paragraphs)(IdIn(reps, namespace)(p)).facts
            <==> exists q :: q in paragraphs && q.text == p.text && fact in q.facts
  {
    var id := IdIn(reps, namespace)(p);
    LastAtMeans(reps, namespace, paragraphs, id);
    InSortedFacts(FactsAt(reps, namespace, paragraphs, id), fact);
    FactsAtMeans(reps, namespace, paragraphs, id, fact);
    if exists q :: q in paragraphs && q.text == p.text && fact in q.facts {
      var q :| q in paragraphs && q.text == p.text && fact in q.facts;
      assert IdIn(reps, namespace)(q) == id;
    }
  }

  /******* All queries *******/

  function Deduplicated(reps: Reps, queries: seq<SourceQuery>): seq<SourceQuery> {
    Map(NormalizeQuery(reps), queries)
  }

  // A source ID names one text in each namespace.
  ghost predicate OneTextPerId(queries: seq<SourceQuery>) {
    forall query, other :: query in queries && other in queries && Namespace(query.source) == Namespace(other.source)
      ==> AgreeOnTexts(query.paragraphs, other.paragraphs)
  }

  ghost predicate AgreeOnTexts(paragraphs: seq<Paragraph>, others: seq<Paragraph>) {
    forall p, q :: p in paragraphs && q in others && p.documentId == q.documentId ==> p.text == q.text
  }

  lemma {:induction false} ParagraphIsKnown(queries: seq<SourceQuery>, reps: Reps, query: SourceQuery, p: Paragraph)
    requires AreReps(queries, reps) && query in queries && p in query.paragraphs
    ensures var key := (Namespace(query.source), p.text);
            key in reps && Occurs(queries, key, NameOf(p)) && Occurs(queries, key, reps[key])
  {
    var key := (Namespace(query.source), p.text);
    var j :| 0 <= j < |query.paragraphs| && query.paragraphs[j] == p;
    assert OccursIn(query, key, NameOf(p));
    NamesMeans(queries, key, NameOf(p));
    LeastNameIs(Names(queries, key));
    NamesMeans(queries, key, reps[key]);
  }

  lemma {:induction false} QueryIsKnown(queries: seq<SourceQuery>, reps: Reps, query: SourceQuery)
    requires AreReps(queries, reps) && query in queries
    ensures AreKnown(reps, Namespace(query.source), query.paragraphs)
  {
    forall p | p in query.paragraphs ensures (Namespace(query.source), p.text) in reps {
      ParagraphIsKnown(queries, reps, query, p);
    }
  }

  lemma {:induction false} QueryHasNoCollision(queries: seq<SourceQuery>, reps: Reps, query: SourceQuery)
    requires AreReps(queries, reps) && OneTextPerId(queries) && query in queries
    ensures HasNoCollision(reps, Namespace(query.source), query.paragraphs)
  {
    var namespace, paragraphs := Namespace(query.source), query.paragraphs;
    forall p, q | p in paragraphs && q in paragraphs && IdIn(reps, namespace)(p) == IdIn(reps, namespace)(q)
      ensures p.text == q.text {
      PairHasNoCollision(queries, reps, query, p, q);
    }
  }

  // The paragraph that a paragraph's representative is taken from.
  lemma {:induction false} Representative(queries: seq<SourceQuery>, reps: Reps, query: SourceQuery, p: Paragraph)
    returns (other: SourceQuery, q: Paragraph)
    requires AreReps(queries, reps) && query in queries && p in query.paragraphs
    ensures other in queries && q in other.paragraphs && Namespace(other.source) == Namespace(query.source)
    ensures q.text == p.text && q.documentId == IdIn(reps, Namespace(query.source))(p)
  {
    var key := (Namespace(query.source), p.text);
    ParagraphIsKnown(queries, reps, query, p);
    other :| other in queries && OccursIn(other, key, reps[key]);
    var j :| 0 <= j < |other.paragraphs| && other.paragraphs[j].text == key.1
        && NameOf(other.paragraphs[j]) == reps[key];
    q := other.paragraphs[j];
  }

  lemma {:induction false} PairHasNoCollision(queries: seq<SourceQuery>, reps: Reps, query: SourceQuery, p: Paragraph,
                                              q: Paragraph)
    requires AreReps(queries, reps) && OneTextPerId(queries) && query in queries && p in query.paragraphs
             && q in query.paragraphs
    ensures IdIn(reps, Namespace(query.source))(p) == IdIn(reps, Namespace(query.source))(q) ==> p.text == q.text
  {
    var forP, p' := Representative(queries, reps, query, p);
    var forQ, q' := Representative(queries, reps, query, q);
    assert AgreeOnTexts(forP.paragraphs, forQ.paragraphs);
  }

  // Some result has the text of the paragraph, with exactly the facts of the paragraphs with that text.
  ghost predicate IsKept(results: seq<Paragraph>, paragraphs: seq<Paragraph>, p: Paragraph) {
    exists o :: o in results && o.text == p.text && HasFactsOf(o, paragraphs)
  }

  ghost predicate HasFactsOf(o: Paragraph, paragraphs: seq<Paragraph>) {
    forall fact :: fact in o.facts <==> exists q :: q in paragraphs && q.text == o.text && fact in q.facts
  }

  lemma {:induction false} ParagraphIsKept(reps: Reps, namespace: string, paragraphs: seq<Paragraph>, p: Paragraph)
    requires AreKnown(reps, namespace, paragraphs) && HasNoCollision(reps, namespace, paragraphs) && p in paragraphs
    ensures IsKept(NormalizeParagraphs(reps, namespace, paragraphs), paragraphs, p)
  {
    var o := Merge(reps, namespace, paragraphs)(IdIn(reps, namespace)(p));
    MergedInto(reps, namespace, paragraphs, p);
    LastAtMeans(reps, namespace, paragraphs, o.documentId);
    forall fact ensures fact in o.facts <==> exists q :: q in paragraphs && q.text == o.text && fact in q.facts {
      FactsAreKept(reps, namespace, paragraphs, p, fact);
    }
  }

  /** When a source ID names one text in each namespace, every query keeps its texts and, for each, its facts. */
  lemma {:induction false} EvidenceIsKept(queries: seq<SourceQuery>, reps: Reps, query: SourceQuery)
    requires AreReps(queries, reps) && OneTextPerId(queries) && query in queries
    ensures SameTexts(NormalizeQuery(reps)(query).paragraphs, query.paragraphs)
    ensures forall p :: p in query.paragraphs ==> IsKept(NormalizeQuery(reps)(query).paragraphs, query.paragraphs, p)
  {
    QueryIsKnown(queries, reps, query);
    QueryHasNoCollision(queries, reps, query);
    TextsAreKeptIff(reps, Namespace(query.source), query.paragraphs);
    forall p | p in query.paragraphs ensures IsKept(NormalizeQuery(reps)(query).paragraphs, query.paragraphs, p) {
      ParagraphIsKept(reps, Namespace(query.source), query.paragraphs, p);
    }
  }

  /** Afterwards every document has one name, that of its representative, so there is one source ID for each text. */
  lemma {:induction false} OneNamePerText(queries: seq<SourceQuery>, reps: Reps, key: Key, name: Name)
    requires AreReps(queries, reps) && Occurs(Deduplicated(reps, queries), key, name)
    ensures key in reps && name == reps[key]
  {
    var results := Deduplicated(reps, queries);
    var result :| result in results && OccursIn(result, key, name);
    var i :| 0 <= i < |results| && results[i] == result;
    var j :| 0 <= j < |result.paragraphs| && result.paragraphs[j].text == key.1 && NameOf(result.paragraphs[j]) == name;
    assert queries[i] in queries;
    var last := MergedFrom(reps, Namespace(queries[i].source), queries[i].paragraphs, result.paragraphs[j]);
    ParagraphIsKnown(queries, reps, queries[i], last);
  }

  // A document known under several source IDs, which the report lists.
  ghost predicate HasAliases(queries: seq<SourceQuery>, key: Key) {
    exists name, other :: name in Names(queries, key) && other in Names(queries, key) && name.0 != other.0
  }

  /** A second pass finds no aliases and leaves every query as it is. */
  lemma {:induction false} SecondPassChangesNothing(queries: seq<SourceQuery>, reps: Reps, reps': Reps)
    requires AreReps(queries, reps) && AreReps(Deduplicated(reps, queries), reps')
    ensures forall key :: !HasAliases(Deduplicated(reps, queries), key)
    ensures Deduplicated(reps', Deduplicated(reps, queries)) == Deduplicated(reps, queries)
  {
    var results := Deduplicated(reps, queries);
    forall key ensures !HasAliases(results, key) {
      forall name | name in Names(results, key) ensures key in reps && name == reps[key] {
        NamesMeans(results, key, name);
        OneNamePerText(queries, reps, key, name);
      }
    }
    forall i | 0 <= i < |queries| ensures NormalizeQuery(reps')(results[i]) == results[i] {
      assert queries[i] in queries && results[i] in results;
      var namespace := Namespace(queries[i].source);
      forall o | o in results[i].paragraphs
        ensures IdIn(reps', namespace)(o) == o.documentId && TitleIn(reps', namespace)(o) == o.title
      {
        ParagraphIsKnown(results, reps', results[i], o);
        OneNamePerText(queries, reps, (namespace, o.text), NameOf(o));
        OneNamePerText(queries, reps, (namespace, o.text), reps'[(namespace, o.text)]);
      }
      NormalizedIsFixed(reps, reps', namespace, queries[i].paragraphs);
    }
  }

  lemma {:induction false} MergedIdsAreSorted(reps: Reps, namespace: string, paragraphs: seq<Paragraph>)
    ensures var ids := MergedIds(reps, namespace, paragraphs); SortedBy(StringLe, ids) && Distinct(ids)
  {
    var ids := Dedup(Map(IdIn(reps, namespace), paragraphs));
    StringLeIsTotalOrder();
    SortSorted(StringLe, ids);
    DedupIsDistinct(Map(IdIn(reps, namespace), paragraphs));
    DistinctMultiset(ids);
    DistinctMultiset(Sort(StringLe, ids));
  }

  lemma {:induction false} DedupOfDistinct<T>(s: seq<T>)
    requires Distinct(s)
    ensures Dedup(s) == s
  {
    if s != [] {
      DedupOfDistinct(s[..|s| - 1]);
      assert s == s[..|s| - 1] + [s[|s| - 1]];
    }
  }

  lemma {:induction false} SortedFactsAreFixed(facts: seq<Fact>)
    ensures SortedFacts(SortedFacts(facts)) == SortedFacts(facts)
  {
    var sorted := SortedFacts(facts);
    FactLeIsTotal();
    SortSorted(FactLe, Dedup(facts));
    DedupIsDistinct(facts);
    DistinctMultiset(Dedup(facts));
    DistinctMultiset(sorted);
    DedupOfDistinct(sorted);
    SortOfSorted(FactLe, sorted);
  }

  // Where every paragraph gets the ID it has, and no two have the same.
  ghost predicate AreFixed(reps: Reps, namespace: string, paragraphs: seq<Paragraph>) {
    && (forall i :: 0 <= i < |paragraphs| ==> IdIn(reps, namespace)(paragraphs[i]) == paragraphs[i].documentId)
    && (forall i, j :: 0 <= i < j < |paragraphs| ==> paragraphs[i].documentId != paragraphs[j].documentId)
  }

  lemma {:induction false} FixedAt(reps: Reps, namespace: string, paragraphs: seq<Paragraph>, k: nat)
    requires AreFixed(reps, namespace, paragraphs) && k < |paragraphs|
    ensures LastAt(reps, namespace, paragraphs, paragraphs[k].documentId) == Some(paragraphs[k])
    ensures FactsAt(reps, namespace, paragraphs, paragraphs[k].documentId) == paragraphs[k].facts
    decreases |paragraphs|
  {
    var n := |paragraphs| - 1;
    if k < n {
      FixedAt(reps, namespace, paragraphs[..n], k);
    } else {
      NothingAt(reps, namespace, paragraphs[..n], paragraphs[n].documentId);
      assert [] + paragraphs[n].facts == paragraphs[n].facts;
    }
  }

  lemma {:induction false} NothingAt(reps: Reps, namespace: string, paragraphs: seq<Paragraph>, id: string)
    requires forall i :: 0 <= i < |paragraphs| ==> IdIn(reps, namespace)(paragraphs[i]) != id
    ensures FactsAt(reps, namespace, paragraphs, id) == []
    decreases |paragraphs|
  {
    if paragraphs != [] {
      NothingAt(reps, namespace, paragraphs[..|paragraphs| - 1], id);
    }
  }

  lemma {:induction false} ResultAt(reps: Reps, namespace: string, paragraphs: seq<Paragraph>, i: nat)
    requires i < |NormalizeParagraphs(reps, namespace, paragraphs)|
    ensures var o := NormalizeParagraphs(reps, namespace, paragraphs)[i];
            o.documentId == MergedIds(reps, namespace, paragraphs)[i] && SortedFacts(o.facts) == o.facts
  {
    var result := NormalizeParagraphs(reps, namespace, paragraphs);
    var id := MergedIds(reps, namespace, paragraphs)[i];
    assert result[i] == Merge(reps, namespace, paragraphs)(id);
    SortedFactsAreFixed(FactsAt(reps, namespace, paragraphs, id));
    assert SortedFacts([]) == [];
  }

  lemma {:induction false} ResultsAreFixed(reps: Reps, reps': Reps, namespace: string, paragraphs: seq<Paragraph>)
    requires forall o :: o in NormalizeParagraphs(reps, namespace, paragraphs)
                         ==> IdIn(reps', namespace)(o) == o.documentId
    ensures AreFixed(reps', namespace, NormalizeParagraphs(reps, namespace, paragraphs))
    ensures MergedIds(reps', namespace, NormalizeParagraphs(reps, namespace, paragraphs))
            == MergedIds(reps, namespace, paragraphs)
  {
    var ids, result := MergedIds(reps, namespace, paragraphs), NormalizeParagraphs(reps, namespace, paragraphs);
    MergedIdsAreSorted(reps, namespace, paragraphs);
    forall i | 0 <= i < |result| ensures result[i].documentId == ids[i] == IdIn(reps', namespace)(result[i]) {
      assert result[i] in result;
      ResultAt(reps, namespace, paragraphs, i);
    }
    assert Map(IdIn(reps', namespace), result) == ids;
    DedupOfDistinct(ids);
    SortOfSorted(StringLe, ids);
  }

  lemma {:induction false} NormalizedIsFixed(reps: Reps, reps': Reps, namespace: string, paragraphs: seq<Paragraph>)
    requires forall o :: o in NormalizeParagraphs(reps, namespace, paragraphs) ==>
               IdIn(reps', namespace)(o) == o.documentId && TitleIn(reps', namespace)(o) == o.title
    ensures NormalizeParagraphs(reps', namespace, NormalizeParagraphs(reps, namespace, paragraphs))
            == NormalizeParagraphs(reps, namespace, paragraphs)
  {
    var ids, result := MergedIds(reps, namespace, paragraphs), NormalizeParagraphs(reps, namespace, paragraphs);
    ResultsAreFixed(reps, reps', namespace, paragraphs);
    forall i | 0 <= i < |result| ensures Merge(reps', namespace, result)(ids[i]) == result[i] {
      assert result[i] in result;
      ResultAt(reps, namespace, paragraphs, i);
      FixedAt(reps', namespace, result, i);
    }
  }

  /** An input that shows the loss: one source ID names two texts. */
  lemma {:induction false} TwoTextsOfOneIdCollide(query: SourceQuery, reps: Reps)
    requires query == SourceQuery(Nq, "q", "?", [Paragraph("a", "t", "x", []), Paragraph("a", "t", "y", [])])
    requires AreReps([query], reps)
    ensures !SameTexts(NormalizeQuery(reps)(query).paragraphs, query.paragraphs)
  {
    var p, q := query.paragraphs[0], query.paragraphs[1];
    assert query in [query];
    QueryIsKnown([query], reps, query);
    NamesOfOne(query, p.text, [NameOf(p)]);
    NamesOfOne(query, q.text, [NameOf(q)]);
    BothGetOneId(reps, query.paragraphs);
    TextsAreKeptIff(reps, "dpr_nq", query.paragraphs);
  }

  lemma {:induction false} BothGetOneId(reps: Reps, paragraphs: seq<Paragraph>)
    requires |paragraphs| == 2 && paragraphs[0].text != paragraphs[1].text
    requires ("dpr_nq", paragraphs[0].text) in reps && ("dpr_nq", paragraphs[1].text) in reps
    requires reps[("dpr_nq", paragraphs[0].text)].0 == reps[("dpr_nq", paragraphs[1].text)].0
    ensures !HasNoCollision(reps, "dpr_nq", paragraphs)
  {
    assert paragraphs[0] in paragraphs && paragraphs[1] in paragraphs;
    assert IdIn(reps, "dpr_nq")(paragraphs[0]) == IdIn(reps, "dpr_nq")(paragraphs[1]);
  }

  lemma {:induction false} NamesOfOne(query: SourceQuery, text: string, names: seq<Name>)
    requires |query.paragraphs| == 2 && query.source == Nq
    requires names == (if query.paragraphs[0].text == text then [NameOf(query.paragraphs[0])] else [])
                    + (if query.paragraphs[1].text == text then [NameOf(query.paragraphs[1])] else [])
    ensures Names([query], ("dpr_nq", text)) == names
  {
    var init := query.paragraphs[..1];
    assert init[..0] == [];
    assert NamesIn(init[..0], text) == [];
    assert NamesIn(init, text) == if query.paragraphs[0].text == text then [NameOf(query.paragraphs[0])] else [];
    assert Names([query][..0], ("dpr_nq", text)) == [];
  }

  /******* The loops *******/

  // The names before a paragraph of a query.
  function NamesBefore(queries: seq<SourceQuery>, i: nat, j: nat, key: Key): seq<Name>
    requires i < |queries| && j <= |queries[i].paragraphs|
  {
    Names(queries[..i], key)
    + (if Namespace(queries[i].source) == key.0 then NamesIn(queries[i].paragraphs[..j], key.1) else [])
  }

  type Groups = map<Key, seq<Name>>

  ghost predicate AreGroups(names: Key -> seq<Name>, grouped: Groups) {
    && (forall key :: key in grouped <==> names(key) != [])
    && (forall key :: key in grouped ==> grouped[key] == names(key))
  }

  function NamesUpTo(queries: seq<SourceQuery>, i: nat): Key -> seq<Name>
    requires i <= |queries|
  {
    (key: Key) => Names(queries[..i], key)
  }

  function NamesWithin(queries: seq<SourceQuery>, i: nat, j: nat): Key -> seq<Name>
    requires i < |queries| && j <= |queries[i].paragraphs|
  {
    (key: Key) => NamesBefore(queries, i, j, key)
  }

  lemma {:induction false} NamesOfQuery(queries: seq<SourceQuery>, i: nat, key: Key)
    requires i < |queries|
    ensures NamesBefore(queries, i, 0, key) == Names(queries[..i], key)
    ensures NamesBefore(queries, i, |queries[i].paragraphs|, key) == Names(queries[..i + 1], key)
  {
    var paragraphs := queries[i].paragraphs;
    assert paragraphs[..|paragraphs|] == paragraphs && paragraphs[..0] == [];
    assert queries[..i + 1][..i] == queries[..i] && queries[..i + 1][i] == queries[i];
  }

  lemma {:induction false} NamesOfParagraph(queries: seq<SourceQuery>, i: nat, j: nat, key: Key)
    requires i < |queries| && j < |queries[i].paragraphs|
    ensures var p := queries[i].paragraphs[j];
            NamesBefore(queries, i, j + 1, key)
            == NamesBefore(queries, i, j, key) + if key == (Namespace(queries[i].source), p.text) then [NameOf(p)]
                else []
  {
    var paragraphs := queries[i].paragraphs;
    assert paragraphs[..j + 1][..j] == paragraphs[..j] && paragraphs[..j + 1][j] == paragraphs[j];
  }

  lemma {:induction false} StartQuery(queries: seq<SourceQuery>, i: nat, grouped: Groups)
    requires i < |queries|
    ensures AreGroups(NamesUpTo(queries, i), grouped) ==> AreGroups(NamesWithin(queries, i, 0), grouped)
    ensures AreGroups(NamesWithin(queries, i, |queries[i].paragraphs|), grouped)
            ==> AreGroups(NamesUpTo(queries, i + 1), grouped)
  {
    forall key
      ensures NamesWithin(queries, i, 0)(key) == NamesUpTo(queries, i)(key)
      ensures NamesWithin(queries, i, |queries[i].paragraphs|)(key) == NamesUpTo(queries, i + 1)(key)
    {
      NamesOfQuery(queries, i, key);
    }
  }

  lemma {:induction false} AddName(queries: seq<SourceQuery>, i: nat, j: nat, grouped: Groups)
    requires i < |queries| && j < |queries[i].paragraphs| && AreGroups(NamesWithin(queries, i, j), grouped)
    ensures var p := queries[i].paragraphs[j];
            var key := (Namespace(queries[i].source), p.text);
            AreGroups(NamesWithin(queries, i, j + 1),
                      grouped[key := (if key in grouped then grouped[key] else []) + [NameOf(p)]])
  {
    forall key
      ensures var p := queries[i].paragraphs[j];
              NamesWithin(queries, i, j + 1)(key)
              == NamesWithin(queries, i, j)(key) + if key == (Namespace(queries[i].source), p.text) then [NameOf(p)]
                  else []
    {
      NamesOfParagraph(queries, i, j, key);
    }
  }

  method GroupDocuments(queries: seq<SourceQuery>) returns (grouped: Groups)
    ensures AreGroups(NamesUpTo(queries, |queries|), grouped)
  {
    grouped := map[];
    for i := 0 to |queries|
      invariant AreGroups(NamesUpTo(queries, i), grouped)
    {
      StartQuery(queries, i, grouped);
      for j := 0 to |queries[i].paragraphs|
        invariant AreGroups(NamesWithin(queries, i, j), grouped)
      {
        AddName(queries, i, j, grouped);
        var p := queries[i].paragraphs[j];
        var key := (Namespace(queries[i].source), p.text);
        if key !in grouped {
          grouped := grouped[key := []];
        }
        grouped := grouped[key := grouped[key] + [NameOf(p)]];
      }
      StartQuery(queries, i, grouped);
    }
  }

  // What the loop over one query's paragraphs keeps: its IDs in order of appearance, the last paragraph and the facts
  // of each.
  ghost predicate AreIds(reps: Reps, namespace: string, paragraphs: seq<Paragraph>, keys: seq<string>) {
    keys == Dedup(Map(IdIn(reps, namespace), paragraphs))
  }

  ghost predicate AreMerged(reps: Reps, namespace: string, paragraphs: seq<Paragraph>, merged: map<string, Paragraph>) {
    forall id :: if id in merged then IsMergedAt(reps, namespace, paragraphs, id, merged[id])
        else LastAt(reps, namespace, paragraphs, id) == None
  }

  ghost predicate IsMergedAt(reps: Reps, namespace: string, paragraphs: seq<Paragraph>, id: string, merged: Paragraph) {
    var last := LastAt(reps, namespace, paragraphs, id);
    last.Some? && merged == Paragraph(id, TitleIn(reps, namespace)(last.value), last.value.text, [])
  }

  ghost predicate AreFacts(reps: Reps, namespace: string, paragraphs: seq<Paragraph>, facts: map<string, seq<Fact>>) {
    forall id :: FactsAt(reps, namespace, paragraphs, id) == if id in facts then facts[id] else []
  }

  lemma {:induction false} IdsNext(reps: Reps, namespace: string, paragraphs: seq<Paragraph>, n: nat, keys: seq<string>)
    requires n < |paragraphs| && AreIds(reps, namespace, paragraphs[..n], keys)
    ensures var id := IdIn(reps, namespace)(paragraphs[n]);
            && AreIds(reps, namespace, paragraphs[..n + 1], if id in keys then keys else keys + [id])
            && (id in keys <==> LastAt(reps, namespace, paragraphs[..n], id) != None)
  {
    var id := IdIn(reps, namespace)(paragraphs[n]);
    var ids := Map(IdIn(reps, namespace), paragraphs[..n + 1]);
    assert ids[..n] == Map(IdIn(reps, namespace), paragraphs[..n]) && ids[n] == id;
    InDedup(ids[..n], id);
    LastAtMeans(reps, namespace, paragraphs[..n], id);
    if id in keys {
      var i :| 0 <= i < n && ids[i] == id;
      assert paragraphs[..n][i] in paragraphs[..n];
    } else {
      assert forall i :: 0 <= i < n ==> ids[..n][i] in ids[..n];
    }
  }

  lemma {:induction false} MergedNext(reps: Reps, namespace: string, paragraphs: seq<Paragraph>, n: nat,
                                      merged: map<string, Paragraph>)
    requires n < |paragraphs| && AreMerged(reps, namespace, paragraphs[..n], merged)
    ensures var p := paragraphs[n];
            var id := IdIn(reps, namespace)(p);
            AreMerged(reps, namespace, paragraphs[..n + 1],
                      merged[id := Paragraph(id, TitleIn(reps, namespace)(p), p.text, [])])
  {
    var next := paragraphs[..n + 1];
    assert next[..n] == paragraphs[..n] && next[n] == paragraphs[n];
  }

  lemma {:induction false} FactsNext(reps: Reps, namespace: string, paragraphs: seq<Paragraph>, n: nat,
                                     facts: map<string, seq<Fact>>)
    requires n < |paragraphs| && AreFacts(reps, namespace, paragraphs[..n], facts)
    ensures var p := paragraphs[n];
            var id := IdIn(reps, namespace)(p);
            AreFacts(reps, namespace, paragraphs[..n + 1],
                     facts[id := (if id in facts then facts[id] else []) + p.facts])
  {
    var next := paragraphs[..n + 1];
    assert next[..n] == paragraphs[..n] && next[n] == paragraphs[n];
  }

  lemma {:induction false} AllMerged(reps: Reps, namespace: string, paragraphs: seq<Paragraph>, keys: seq<string>,
                                    merged: map<string, Paragraph>, facts: map<string, seq<Fact>>, id: string)
    requires AreIds(reps, namespace, paragraphs, keys) && AreMerged(reps, namespace, paragraphs, merged)
             && AreFacts(reps, namespace, paragraphs, facts)
    requires id in keys
    ensures id in merged
    ensures merged[id].(facts := SortedFacts(if id in facts then facts[id] else []))
            == Merge(reps, namespace, paragraphs)(id)
  {
    var ids := Map(IdIn(reps, namespace), paragraphs);
    InDedup(ids, id);
    LastAtMeans(reps, namespace, paragraphs, id);
    var i :| 0 <= i < |ids| && ids[i] == id;
    assert paragraphs[i] in paragraphs;
  }

  method MergeParagraphs(reps: Reps, namespace: string, paragraphs: seq<Paragraph>) returns (results: seq<Paragraph>)
    requires AreKnown(reps, namespace, paragraphs)
    ensures results == NormalizeParagraphs(reps, namespace, paragraphs)
  {
    var keys: seq<string>, merged: map<string, Paragraph>, facts: map<string, seq<Fact>> := [], map[], map[];
    for n := 0 to |paragraphs|
      invariant AreIds(reps, namespace, paragraphs[..n], keys)
      invariant AreMerged(reps, namespace, paragraphs[..n], merged)
      invariant AreFacts(reps, namespace, paragraphs[..n], facts)
    {
      IdsNext(reps, namespace, paragraphs, n, keys);
      MergedNext(reps, namespace, paragraphs, n, merged);
      FactsNext(reps, namespace, paragraphs, n, facts);
      var p := paragraphs[n];
      var representative := reps[(namespace, p.text)];
      var id := representative.0;
      if id !in merged {
        keys := keys + [id];
      }
      merged := merged[id := Paragraph(id, representative.1, p.text, [])];
      facts := facts[id := (if id in facts then facts[id] else []) + p.facts];
    }
    assert paragraphs[..|paragraphs|] == paragraphs;
    results := SortedItems(reps, namespace, paragraphs, keys, merged, facts);
  }

  // The loop over the sorted items.
  method SortedItems(reps: Reps, namespace: string, paragraphs: seq<Paragraph>, keys: seq<string>,
                     merged: map<string, Paragraph>, facts: map<string, seq<Fact>>) returns (results: seq<Paragraph>)
    requires AreIds(reps, namespace, paragraphs, keys) && AreMerged(reps, namespace, paragraphs, merged)
             && AreFacts(reps, namespace, paragraphs, facts)
    ensures results == NormalizeParagraphs(reps, namespace, paragraphs)
  {
    var ids := Sort(StringLe, keys);
    ghost var merge := Merge(reps, namespace, paragraphs);
    results := [];
    for i := 0 to |ids|
      invariant results == Map(merge, ids)[..i]
    {
      ItemAt(reps, namespace, paragraphs, keys, merged, facts, ids[i], i);
      MapTake(merge, ids, i);
      results := results + [merged[ids[i]].(facts := SortedFacts(if ids[i] in facts then facts[ids[i]] else []))];
    }
    assert ids == MergedIds(reps, namespace, paragraphs);
  }

  lemma {:induction false} ItemAt(reps: Reps, namespace: string, paragraphs: seq<Paragraph>, keys: seq<string>,
                                 merged: map<string, Paragraph>, facts: map<string, seq<Fact>>, id: string, i: nat)
    requires AreIds(reps, namespace, paragraphs, keys) && AreMerged(reps, namespace, paragraphs, merged)
             && AreFacts(reps, namespace, paragraphs, facts)
    requires i < |Sort(StringLe, keys)| && id == Sort(StringLe, keys)[i]
    ensures id in merged
    ensures merged[id].(facts := SortedFacts(if id in facts then facts[id] else []))
            == Merge(reps, namespace, paragraphs)(id)
  {
    InSort(StringLe, keys);
    assert id in Sort(StringLe, keys);
    AllMerged(reps, namespace, paragraphs, keys, merged, facts, id);
  }

  // The source IDs of a document known under more than one.
  function SourceIds(names: seq<Name>): seq<string> {
    Sort(StringLe, Dedup(Map(FirstOf, names)))
  }

  function FirstOf(name: Name): string {
    name.0
  }

  lemma {:induction false} ManySourceIds(names: seq<Name>)
    ensures |SourceIds(names)| > 1 <==> exists name, other :: name in names && other in names && name.0 != other.0
  {
    var distinct := Dedup(Map(FirstOf, names));
    DedupIsDistinct(Map(FirstOf, names));
    if |distinct| > 1 {
      assert distinct[0] in distinct && distinct[1] in distinct;
      var name := NameWithId(names, distinct[0]);
      var other := NameWithId(names, distinct[1]);
    }
    if name, other :| name in names && other in names && name.0 != other.0 {
      IdOfName(names, name);
      IdOfName(names, other);
    }
  }

  lemma {:induction false} IdOfName(names: seq<Name>, name: Name)
    requires name in names
    ensures name.0 in Map(FirstOf, names)
  {
    var i :| 0 <= i < |names| && names[i] == name;
    assert Map(FirstOf, names)[i] == name.0;
  }

  lemma {:induction false} NameWithId(names: seq<Name>, id: string) returns (name: Name)
    requires id in Map(FirstOf, names)
    ensures name in names && name.0 == id
  {
    var i :| 0 <= i < |names| && Map(FirstOf, names)[i] == id;
    name := names[i];
  }

  method NormalizeQueries(reps: Reps, queries: seq<SourceQuery>) returns (results: seq<SourceQuery>)
    requires AreReps(queries, reps)
    ensures results == Deduplicated(reps, queries)
  {
    results := [];
    for i := 0 to |queries|
      invariant results == Map(NormalizeQuery(reps), queries)[..i]
    {
      QueryIsKnown(queries, reps, queries[i]);
      MapTake(NormalizeQuery(reps), queries, i);
      var paragraphs := MergeParagraphs(reps, Namespace(queries[i].source), queries[i].paragraphs);
      results := results + [queries[i].(paragraphs := paragraphs)];
    }
  }

  /** Deduplication, and the report of the documents that had several source IDs. */
  method DeduplicateExactDocuments(queries: seq<SourceQuery>)
    returns (results: seq<SourceQuery>, aliases: map<Key, seq<string>>, ghost reps: Reps)
    ensures AreReps(queries, reps) && results == Deduplicated(reps, queries)
    ensures forall key :: key in aliases <==> HasAliases(queries, key)
    ensures forall key :: key in aliases ==> AreAliases(queries, key, aliases[key])
  {
    var grouped := GroupDocuments(queries);
    assert queries[..|queries|] == queries;
    assert forall key :: NamesUpTo(queries, |queries|)(key) == Names(queries, key);
    assert AreGroups((key: Key) => Names(queries, key), grouped);
    var representatives := map key | key in grouped :: LeastName(grouped[key]);
    reps := representatives;
    results := NormalizeQueries(representatives, queries);
    aliases := map key | key in grouped && |SourceIds(grouped[key])| > 1 :: SourceIds(grouped[key]);
    AliasesAreReported(queries, grouped, aliases);
    forall key | key in aliases ensures AreAliases(queries, key, aliases[key]) {
      SourceIdsAreAliases(queries, key);
    }
  }

  lemma {:induction false} AliasesAreReported(queries: seq<SourceQuery>, grouped: Groups,
                                              aliases: map<Key, seq<string>>)
    requires AreGroups((key: Key) => Names(queries, key), grouped)
    requires aliases == map key | key in grouped && |SourceIds(grouped[key])| > 1 :: SourceIds(grouped[key])
    ensures forall key :: key in aliases <==> HasAliases(queries, key)
    ensures forall key :: key in aliases ==> aliases[key] == SourceIds(Names(queries, key))
  {
    forall key ensures key in aliases <==> HasAliases(queries, key) {
      ManySourceIds(Names(queries, key));
    }
  }

  /******* What the results are *******/

  ghost predicate Ascends(ids: seq<string>) {
    forall i, j :: 0 <= i < j < |ids| ==> ComesBefore(ids[i], ids[j])
  }

  // The source IDs under which the document occurs, ascending.
  ghost predicate AreAliases(queries: seq<SourceQuery>, key: Key, ids: seq<string>) {
    && Ascends(ids)
    && (forall id :: id in ids <==> exists title :: Occurs(queries, key, (id, title)))
  }

  lemma {:induction false} SourceIdsAreAliases(queries: seq<SourceQuery>, key: Key)
    ensures AreAliases(queries, key, SourceIds(Names(queries, key)))
  {
    var names := Names(queries, key);
    var ids := Map(FirstOf, names);
    SortedIdsAscend(ids);
    forall id ensures id in SourceIds(names) <==> exists title :: Occurs(queries, key, (id, title)) {
      InSort(StringLe, Dedup(ids));
      InDedup(ids, id);
      IdsOfNames(queries, key, id);
    }
  }

  lemma {:induction false} IdsOfNames(queries: seq<SourceQuery>, key: Key, id: string)
    ensures id in Map(FirstOf, Names(queries, key)) <==> exists title :: Occurs(queries, key, (id, title))
  {
    var names := Names(queries, key);
    if id in Map(FirstOf, names) {
      var i :| 0 <= i < |names| && Map(FirstOf, names)[i] == id;
      NamesMeans(queries, key, names[i]);
      assert names[i] == (id, names[i].1);
    }
    if title :| Occurs(queries, key, (id, title)) {
      NamesMeans(queries, key, (id, title));
      var i :| 0 <= i < |names| && names[i] == (id, title);
      assert Map(FirstOf, names)[i] == id;
    }
  }

  lemma {:induction false} SortedIdsAscend(ids: seq<string>)
    ensures Ascends(Sort(StringLe, Dedup(ids)))
  {
    var distinct := Dedup(ids);
    var sorted := Sort(StringLe, distinct);
    StringLeIsTotalOrder();
    DedupIsDistinct(ids);
    SortSorted(StringLe, distinct);
    DistinctMultiset(distinct);
    DistinctMultiset(sorted);
    forall i, j | 0 <= i < j < |sorted| ensures ComesBefore(sorted[i], sorted[j]) {
      StringLeIff(sorted[i], sorted[j]);
    }
  }

  // No other name comes before it: by the source ID, and then by the title.
  ghost predicate IsLeastName(queries: seq<SourceQuery>, key: Key, name: Name) {
    && Occurs(queries, key, name)
    && forall other :: Occurs(queries, key, other) ==>
                         && !ComesBefore(other.0, name.0)
                         && (other.0 == name.0 ==> !ComesBefore(other.1, name.1))
  }

  /** The representative of a document has the least of the names under which it occurs. */
  lemma {:induction false} RepIsLeast(queries: seq<SourceQuery>, reps: Reps, key: Key)
    requires AreReps(queries, reps) && key in reps
    ensures IsLeastName(queries, key, reps[key])
  {
    var names, name := Names(queries, key), reps[key];
    LeastNameIs(names);
    NamesMeans(queries, key, name);
    forall other | Occurs(queries, key, other)
      ensures !ComesBefore(other.0, name.0) && (other.0 == name.0 ==> !ComesBefore(other.1, name.1))
    {
      NamesMeans(queries, key, other);
      assert NameLe(name, other);
      OneComesBefore(name.0, other.0);
      OneComesBefore(name.1, other.1);
    }
  }

  /** Every document of a result has the least name of its text. */
  lemma {:induction false} ResultsHaveLeastNames(queries: seq<SourceQuery>, reps: Reps, query: SourceQuery,
                                                 o: Paragraph)
    requires AreReps(queries, reps) && query in queries
    requires o in NormalizeParagraphs(reps, Namespace(query.source), query.paragraphs)
    ensures IsLeastName(queries, (Namespace(query.source), o.text), (o.documentId, o.title))
  {
    var last := MergedFrom(reps, Namespace(query.source), query.paragraphs, o);
    ParagraphIsKnown(queries, reps, query, last);
    RepIsLeast(queries, reps, (Namespace(query.source), o.text));
  }

  // A fact with a smaller ID, or with the same one and a sentence that is not larger; no sentence counts as empty.
  ghost predicate MayPrecede(a: Fact, b: Fact) {
    || ComesBefore(a.id, b.id)
    || (a.id == b.id && !ComesBefore(if b.sentence.Some? then b.sentence.value else "",
                                     if a.sentence.Some? then a.sentence.value else ""))
  }

  // The last of the paragraphs that get this ID, and the facts of all of them, sorted and each once.
  ghost predicate IsMerge(reps: Reps, namespace: string, paragraphs: seq<Paragraph>, o: Paragraph) {
    && (exists j: nat :: IsLastOf(reps, namespace, paragraphs, o.documentId, j) && paragraphs[j].text == o.text)
    && (forall i, j :: 0 <= i < j < |o.facts| ==> o.facts[i] != o.facts[j] && MayPrecede(o.facts[i], o.facts[j]))
    && (forall fact :: fact in o.facts <==> exists p ::
          p in paragraphs && IdIn(reps, namespace)(p) == o.documentId && fact in p.facts)
  }

  ghost predicate IsLastOf(reps: Reps, namespace: string, paragraphs: seq<Paragraph>, id: string, j: nat) {
    && j < |paragraphs| && IdIn(reps, namespace)(paragraphs[j]) == id
    && forall k :: j < k < |paragraphs| ==> IdIn(reps, namespace)(paragraphs[k]) != id
  }

  /** The results are merged paragraphs, one for each ID that occurs, in ascending order of the IDs. */
  lemma {:induction false} ResultsAreMerged(reps: Reps, namespace: string, paragraphs: seq<Paragraph>)
    ensures
      var results := NormalizeParagraphs(reps, namespace, paragraphs);
      && (forall i, j :: 0 <= i < j < |results| ==> ComesBefore(results[i].documentId, results[j].documentId))
      && (forall o :: o in results ==> IsMerge(reps, namespace, paragraphs, o))
      && (forall p :: p in paragraphs ==> exists o :: o in results && o.documentId == IdIn(reps, namespace)(p))
  {
    var results, ids := NormalizeParagraphs(reps, namespace, paragraphs), MergedIds(reps, namespace, paragraphs);
    SortedIdsAscend(Map(IdIn(reps, namespace), paragraphs));
    forall i, j | 0 <= i < j < |results| ensures ComesBefore(results[i].documentId, results[j].documentId) {
      assert ComesBefore(ids[i], ids[j]);
    }
    forall o | o in results ensures IsMerge(reps, namespace, paragraphs, o) {
      ResultIsMerge(reps, namespace, paragraphs, o);
    }
    forall p | p in paragraphs ensures exists o :: o in results && o.documentId == IdIn(reps, namespace)(p) {
      MergedInto(reps, namespace, paragraphs, p);
    }
  }

  lemma {:induction false} ResultIsMerge(reps: Reps, namespace: string, paragraphs: seq<Paragraph>, o: Paragraph)
    requires o in NormalizeParagraphs(reps, namespace, paragraphs)
    ensures IsMerge(reps, namespace, paragraphs, o)
  {
    var last := MergedFrom(reps, namespace, paragraphs, o);
    LastAtMeans(reps, namespace, paragraphs, o.documentId);
    var j := LastAtPlace(reps, namespace, paragraphs, o.documentId);
    var facts := FactsAt(reps, namespace, paragraphs, o.documentId);
    SortedFactsAre(facts);
    forall fact
      ensures fact in o.facts <==> exists p ::
                p in paragraphs && IdIn(reps, namespace)(p) == o.documentId && fact in p.facts
    {
      InSortedFacts(facts, fact);
      FactsAtMeans(reps, namespace, paragraphs, o.documentId, fact);
    }
  }

  lemma {:induction false} LastAtPlace(reps: Reps, namespace: string, paragraphs: seq<Paragraph>, id: string)
    returns (j: nat)
    requires LastAt(reps, namespace, paragraphs, id).Some?
    ensures IsLastOf(reps, namespace, paragraphs, id, j)
    ensures paragraphs[j] == LastAt(reps, namespace, paragraphs, id).value
    decreases |paragraphs|
  {
    var init := paragraphs[..|paragraphs| - 1];
    if IdIn(reps, namespace)(paragraphs[|paragraphs| - 1]) == id {
      j := |paragraphs| - 1;
    } else {
      j := LastAtPlace(reps, namespace, init, id);
      assert forall k :: 0 <= k < |init| ==> init[k] == paragraphs[k];
    }
  }

  lemma {:induction false} SortedFactsAre(facts: seq<Fact>)
    ensures var sorted := SortedFacts(facts);
            forall i, j :: 0 <= i < j < |sorted| ==> sorted[i] != sorted[j] && MayPrecede(sorted[i], sorted[j])
  {
    var distinct, sorted := Dedup(facts), SortedFacts(facts);
    FactLeIsTotal();
    DedupIsDistinct(facts);
    SortSorted(FactLe, distinct);
    DistinctMultiset(distinct);
    DistinctMultiset(sorted);
    forall i, j | 0 <= i < j < |sorted| ensures sorted[i] != sorted[j] && MayPrecede(sorted[i], sorted[j]) {
      assert FactLe(sorted[i], sorted[j]);
      StringLeIff(sorted[i].id, sorted[j].id);
      OneComesBefore(SentenceText(sorted[i]), SentenceText(sorted[j]));
    }
  }
}
