/** The daily macro sweep: every query's articles become catalysts, collapsed per query, added
    to the query's symbol, and collapsed again per symbol. */
module MacroSweep {
  import opened Lists
  import opened Catalysts
  import opened TwoStageDedupe

  datatype Article = Article(title: string, seenOn: Option<int>, detail: string)

  datatype Query = Query(symbol: string, kind: string, severity: string)

  /** What running a query came to: its articles (none when the feed failed softly), or an
      unexpected error. */
  datatype Reply = Articles(articles: seq<Article>) | Broken(message: string)

  datatype Job = Job(query: Query, reply: Reply)

  datatype Report = Report(
    queriesRun: nat, articlesSeen: nat, fromArticles: nat, catalysts: seq<Catalyst>, error: string)

  function Confidence(severity: string): real {
    if severity == "high" then 0.8
    else if severity == "medium" then 0.6
    else if severity == "low" then 0.45
    else 0.6
  }

  /** An article without a title makes no catalyst. */
  function ToCatalyst(a: Article, q: Query): Option<Catalyst> {
    if a.title == "" then None else Some(Catalyst(q.kind, a.title, a.seenOn, Confidence(q.severity), a.detail))
  }

  function Mapped(articles: seq<Article>, q: Query): seq<Catalyst> {
    if articles == [] then []
    else
      var n := |articles| - 1;
      var cats := Mapped(articles[..n], q);
      match ToCatalyst(articles[n], q)
      case Some(c) => cats + [c]
      case None => cats
  }

  method FetchForQuery(job: Job) returns (cats: seq<Catalyst>)
    requires job.reply.Articles?
    ensures cats == Deduped(Mapped(job.reply.articles, job.query))
  {
    hide Confidence, Deduped;
    var out: seq<Catalyst> := [];
    var articles, q := job.reply.articles, job.query;
    for i := 0 to |articles|
      invariant out == Mapped(articles[..i], q)
    {
      assert articles[..i + 1][..i] == articles[..i];
      match ToCatalyst(articles[i], q) {
        case Some(c) => out := out + [c];
        case None =>
      }
    }
    assert articles[..|articles|] == articles;
    cats := Dedupe(out);
  }

  // ---------------------------------------------------------------- the sweep

  /** The catalysts of each successful query for a symbol, in the order the queries ran. */
  function Batches(jobs: seq<Job>, symbol: string): seq<seq<Catalyst>> {
    if jobs == [] then []
    else
      var n := |jobs| - 1;
      if jobs[n].query.symbol == symbol && jobs[n].reply.Articles?
      then Batches(jobs[..n], symbol) + [Mapped(jobs[n].reply.articles, jobs[n].query)]
      else Batches(jobs[..n], symbol)
  }

  function RunsOf(jobs: seq<Job>, symbol: string): nat {
    if jobs == [] then 0
    else RunsOf(jobs[..|jobs| - 1], symbol) + (if jobs[|jobs| - 1].query.symbol == symbol then 1 else 0)
  }

  function SeenOf(batches: seq<seq<Catalyst>>): nat {
    if batches == [] then 0 else |Deduped(batches[0])| + SeenOf(batches[1..])
  }

  /** The message of the last query of a symbol that broke. */
  function ErrorOf(jobs: seq<Job>, symbol: string): string {
    if jobs == [] then ""
    else
      var job := jobs[|jobs| - 1];
      if job.query.symbol == symbol && job.reply.Broken? then job.reply.message
      else ErrorOf(jobs[..|jobs| - 1], symbol)
  }

  function Symbols(jobs: seq<Job>): set<string> {
    set n | 0 <= n < |jobs| :: jobs[n].query.symbol
  }

  /** A symbol's report once all its queries have run. */
  function Gathered(jobs: seq<Job>, symbol: string): Report {
    var batches := Batches(jobs, symbol);
    Report(RunsOf(jobs, symbol), SeenOf(batches), 0, Staged(batches), ErrorOf(jobs, symbol))
  }

  lemma {:induction false} StagedSnoc(batches: seq<seq<Catalyst>>, batch: seq<Catalyst>)
    ensures Staged(batches + [batch]) == Staged(batches) + Deduped(batch)
    ensures SeenOf(batches + [batch]) == SeenOf(batches) + |Deduped(batch)|
  {
    if batches == [] {
      assert [batch][1..] == [];
    } else {
      assert (batches + [batch])[1..] == batches[1..] + [batch];
      StagedSnoc(batches[1..], batch);
    }
  }

  lemma {:induction false} NotRunYet(jobs: seq<Job>, symbol: string)
    requires symbol !in Symbols(jobs)
    ensures Gathered(jobs, symbol) == Report(0, 0, 0, [], "")
  {
    if jobs != [] {
      var init := jobs[..|jobs| - 1];
      assert jobs == init + [jobs[|jobs| - 1]];
      SymbolsSnoc(init, jobs[|jobs| - 1]);
      NotRunYet(init, symbol);
      assert jobs[|jobs| - 1].query.symbol != symbol;
    }
  }

  /** A symbol's report after one more of its queries. */
  function Ran(before: Report, job: Job): Report {
    match job.reply
    case Broken(message) => before.(queriesRun := before.queriesRun + 1, error := message)
    case Articles(articles) =>
      var cats := Deduped(Mapped(articles, job.query));
      before.(queriesRun := before.queriesRun + 1,
              articlesSeen := before.articlesSeen + |cats|,
              catalysts := before.catalysts + cats)
  }

  /** One more query: its symbol's report grows, every other stays. */
  lemma GatheredSnoc(jobs: seq<Job>, job: Job, symbol: string)
    ensures Gathered(jobs + [job], symbol)
         == if job.query.symbol == symbol then Ran(Gathered(jobs, symbol), job) else Gathered(jobs, symbol)
  {
    hide Deduped, Mapped;
    assert (jobs + [job])[..|jobs|] == jobs;
    if job.query.symbol == symbol && job.reply.Articles? {
      StagedSnoc(Batches(jobs, symbol), Mapped(job.reply.articles, job.query));
    }
  }

  lemma SymbolsSnoc(jobs: seq<Job>, job: Job)
    ensures Symbols(jobs + [job]) == Symbols(jobs) + {job.query.symbol}
  {
    var t := jobs + [job];
    assert t[|jobs|] == job;
    assert forall n | 0 <= n < |jobs| :: t[n] == jobs[n];
    assert forall s | s in Symbols(jobs) :: exists n :: 0 <= n < |t| && t[n].query.symbol == s by {
      forall s | s in Symbols(jobs)
        ensures exists n :: 0 <= n < |t| && t[n].query.symbol == s
      {
        var n :| 0 <= n < |jobs| && jobs[n].query.symbol == s;
        assert t[n].query.symbol == s;
      }
    }
  }

  lemma {:induction false} MappedConfidence(articles: seq<Article>, q: Query)
    ensures OneConfidence(Mapped(articles, q), Confidence(q.severity))
  {
    if articles != [] {
      MappedConfidence(articles[..|articles| - 1], q);
    }
  }

  lemma AnotherBatch(batches: seq<seq<Catalyst>>, batch: seq<Catalyst>, confidence: real)
    requires EachBatchOneConfidence(batches) && OneConfidence(batch, confidence)
    ensures EachBatchOneConfidence(batches + [batch])
  {
    assert Uniform(batch);
  }

  lemma {:induction false} BatchesHaveOneConfidence(jobs: seq<Job>, symbol: string)
    ensures EachBatchOneConfidence(Batches(jobs, symbol))
  {
    if jobs != [] {
      var job := jobs[|jobs| - 1];
      BatchesHaveOneConfidence(jobs[..|jobs| - 1], symbol);
      if job.query.symbol == symbol && job.reply.Articles? {
        MappedConfidence(job.reply.articles, job.query);
        AnotherBatch(Batches(jobs[..|jobs| - 1], symbol), Mapped(job.reply.articles, job.query),
                     Confidence(job.query.severity));
      }
    }
  }

  /** What a symbol is reported with: all its articles' catalysts collapsed at once. */
  function AllAtOnce(jobs: seq<Job>, symbol: string): seq<Catalyst> {
    Deduped(Flatten(Batches(jobs, symbol)))
  }

  /** A symbol's final report. */
  function Final(jobs: seq<Job>, symbol: string): Report {
    var collapsed := AllAtOnce(jobs, symbol);
    Gathered(jobs, symbol).(catalysts := collapsed, fromArticles := |collapsed|)
  }

  method RunQuery(report: Report, job: Job) returns (after: Report)
    ensures after == Ran(report, job)
  {
    after := report.(queriesRun := report.queriesRun + 1);
    match job.reply {
      case Broken(message) =>
        after := after.(error := message);
      case Articles(_) =>
        var cats := FetchForQuery(job);
        after := after.(articlesSeen := after.articlesSeen + |cats|, catalysts := after.catalysts + cats);
    }
  }

  method RunAll(jobs: seq<Job>) returns (bySymbol: map<string, Report>)
    ensures bySymbol.Keys == Symbols(jobs)
    ensures forall s | s in bySymbol :: bySymbol[s] == Gathered(jobs, s)
  {
    hide Gathered, Symbols, Ran;
    bySymbol := map[];
    assert Symbols([]) == {} by { NoSymbols(); }
    for i := 0 to |jobs|
      invariant bySymbol.Keys == Symbols(jobs[..i])
      invariant forall s | s in bySymbol :: bySymbol[s] == Gathered(jobs[..i], s)
    {
      var job := jobs[i];
      var symbol := job.query.symbol;
      assert jobs[..i + 1] == jobs[..i] + [job];
      SymbolsSnoc(jobs[..i], job);
      forall s
        ensures Gathered(jobs[..i + 1], s)
             == if symbol == s then Ran(Gathered(jobs[..i], s), job) else Gathered(jobs[..i], s)
      {
        GatheredSnoc(jobs[..i], job, s);
      }
      if symbol !in bySymbol {
        NotRunYet(jobs[..i], symbol);
        bySymbol := bySymbol[symbol := Report(0, 0, 0, [], "")];
      }
      var report := RunQuery(bySymbol[symbol], job);
      bySymbol := bySymbol[symbol := report];
    }
    assert jobs[..|jobs|] == jobs;
  }

  lemma NoSymbols()
    ensures Symbols([]) == {}
  {
  }

  /** The sweep reports exactly the symbols its queries name, each with its counts and with
      its articles' catalysts collapsed as if in one pass. */
  method FetchAll(jobs: seq<Job>) returns (bySymbol: map<string, Report>)
    ensures bySymbol.Keys == Symbols(jobs)
    ensures forall s | s in bySymbol :: bySymbol[s] == Final(jobs, s)
  {
    hide Symbols, Batches, RunsOf, SeenOf, ErrorOf, Deduped, Staged;
    bySymbol := RunAll(jobs);
    var todo := bySymbol.Keys;
    while todo != {}
      invariant todo <= bySymbol.Keys == Symbols(jobs)
      invariant forall s | s in bySymbol :: bySymbol[s] == if s in todo then Gathered(jobs, s) else Final(jobs, s)
      decreases todo
    {
      var s :| s in todo;
      BatchesHaveOneConfidence(jobs, s);
      StagingKeepsTheList(Batches(jobs, s));
      var collapsed := Dedupe(bySymbol[s].catalysts);
      bySymbol := bySymbol[s := bySymbol[s].(catalysts := collapsed, fromArticles := |collapsed|)];
      todo := todo - {s};
    }
  }

  // ---------------------------------------------------------------- what a report says

  /** The catalyst a titled article makes under a query. */
  predicate Makes(a: Article, q: Query, c: Catalyst) {
    && a.title != ""
    && c.kind == q.kind && c.title == a.title && c.occursOn == a.seenOn && c.detail == a.detail
    && c.confidence == match q.severity
                       case "high" => 0.8
                       case "low" => 0.45
                       case _ => 0.6
  }

  lemma {:induction false} MappedMeans(articles: seq<Article>, q: Query, c: Catalyst)
    ensures c in Mapped(articles, q) <==> exists a :: a in articles && Makes(a, q, c)
  {
    if articles != [] {
      var n := |articles| - 1;
      assert articles == articles[..n] + [articles[n]];
      MappedMeans(articles[..n], q, c);
      MakesIff(articles[n], q, c);
    }
  }

  lemma MakesIff(a: Article, q: Query, c: Catalyst)
    ensures ToCatalyst(a, q) == Some(c) <==> Makes(a, q, c)
  {
  }

  /** Catalysts come in the order of their articles, one for each titled one. */
  lemma {:induction false} MappedInOrder(a: seq<Article>, b: seq<Article>, q: Query, x: Article)
    ensures Mapped(a + b, q) == Mapped(a, q) + Mapped(b, q)
    ensures |Mapped([x], q)| == if x.title == "" then 0 else 1
  {
    hide Confidence;
    assert [x][..0] == [];
    if b == [] {
      assert a + b == a;
    } else {
      var n := |b| - 1;
      MappedInOrder(a, b[..n], q, x);
      assert (a + b)[..|a + b| - 1] == a + b[..n];
    }
  }

  /** A symbol's catalysts before collapsing come query by query, in order, each query's own. */
  lemma {:induction false} CandidatesInOrder(a: seq<Job>, b: seq<Job>, symbol: string, job: Job)
    ensures Flatten(Batches(a + b, symbol)) == Flatten(Batches(a, symbol)) + Flatten(Batches(b, symbol))
    ensures Flatten(Batches([job], symbol))
         == if job.query.symbol == symbol && job.reply.Articles? then Mapped(job.reply.articles, job.query) else []
  {
    hide Mapped;
    assert [job][..0] == [];
    if job.query.symbol == symbol && job.reply.Articles? {
      FlattenSnoc([], Mapped(job.reply.articles, job.query));
    }
    if b == [] {
      assert a + b == a;
    } else {
      var n := |b| - 1;
      var last := b[n];
      CandidatesInOrder(a, b[..n], symbol, job);
      assert (a + b)[..|a + b| - 1] == a + b[..n];
      if last.query.symbol == symbol && last.reply.Articles? {
        FlattenSnoc(Batches(a + b[..n], symbol), Mapped(last.reply.articles, last.query));
        FlattenSnoc(Batches(b[..n], symbol), Mapped(last.reply.articles, last.query));
      }
    }
  }

  /** Some successful query of the symbol has an article that makes `c`. */
  ghost predicate Found(jobs: seq<Job>, symbol: string, c: Catalyst) {
    exists n, a :: 0 <= n < |jobs| && jobs[n].query.symbol == symbol && jobs[n].reply.Articles?
                   && a in jobs[n].reply.articles && Makes(a, jobs[n].query, c)
  }

  lemma {:induction false} BatchesFound(jobs: seq<Job>, symbol: string, c: Catalyst)
    ensures c in Flatten(Batches(jobs, symbol)) <==> Found(jobs, symbol, c)
  {
    if jobs == [] {
      assert Batches(jobs, symbol) == [];
    } else {
      var n := |jobs| - 1;
      var job := jobs[n];
      BatchesFound(jobs[..n], symbol, c);
      FoundSnoc(jobs, symbol, c);
      if job.query.symbol == symbol && job.reply.Articles? {
        FlattenSnoc(Batches(jobs[..n], symbol), Mapped(job.reply.articles, job.query));
        MappedMeans(job.reply.articles, job.query, c);
      }
    }
  }

  lemma FoundSnoc(jobs: seq<Job>, symbol: string, c: Catalyst)
    requires jobs != []
    ensures var job := jobs[|jobs| - 1];
            Found(jobs, symbol, c)
            <==> Found(jobs[..|jobs| - 1], symbol, c)
                 || (job.query.symbol == symbol && job.reply.Articles?
                     && exists a :: a in job.reply.articles && Makes(a, job.query, c))
  {
    hide Makes;
    var m := |jobs| - 1;
    var job := jobs[m];
    if Found(jobs[..m], symbol, c) {
      var n, a :| 0 <= n < m && jobs[..m][n].query.symbol == symbol && jobs[..m][n].reply.Articles?
                  && a in jobs[..m][n].reply.articles && Makes(a, jobs[..m][n].query, c);
      assert jobs[n].query.symbol == symbol && Makes(a, jobs[n].query, c);
    }
    if Found(jobs, symbol, c) {
      var n, a :| 0 <= n < |jobs| && jobs[n].query.symbol == symbol && jobs[n].reply.Articles?
                  && a in jobs[n].reply.articles && Makes(a, jobs[n].query, c);
      if n < m {
        assert jobs[..m][n] == jobs[n];
      }
    }
  }

  lemma {:induction false} FlattenSnoc(batches: seq<seq<Catalyst>>, batch: seq<Catalyst>)
    ensures Flatten(batches + [batch]) == Flatten(batches) + batch
  {
    if batches == [] {
      assert [batch][1..] == [];
    } else {
      assert (batches + [batch])[1..] == batches[1..] + [batch];
      FlattenSnoc(batches[1..], batch);
    }
  }

  lemma {:induction false} RunsAreFiltered(jobs: seq<Job>, symbol: string)
    ensures RunsOf(jobs, symbol) == |Filter((j: Job) => j.query.symbol == symbol, jobs)|
  {
    if jobs != [] {
      var n := |jobs| - 1;
      RunsAreFiltered(jobs[..n], symbol);
      FilterAppend((j: Job) => j.query.symbol == symbol, jobs[..n], [jobs[n]]);
      assert jobs == jobs[..n] + [jobs[n]];
    }
  }

  /** Query `n` is of the symbol and broke, and none after it did. */
  ghost predicate LastBroken(jobs: seq<Job>, symbol: string, n: nat) {
    && n < |jobs| && jobs[n].query.symbol == symbol && jobs[n].reply.Broken?
    && forall m | n < m < |jobs| && jobs[m].query.symbol == symbol :: jobs[m].reply.Articles?
  }

  lemma {:induction false} ErrorMeans(jobs: seq<Job>, symbol: string)
    ensures if exists n: nat :: LastBroken(jobs, symbol, n)
            then exists n: nat :: LastBroken(jobs, symbol, n) && ErrorOf(jobs, symbol) == jobs[n].reply.message
            else ErrorOf(jobs, symbol) == "" && forall n | 0 <= n < |jobs| && jobs[n].query.symbol == symbol :: jobs[n].reply.Articles?
  {
    if jobs != [] {
      var m := |jobs| - 1;
      var init := jobs[..m];
      if jobs[m].query.symbol == symbol && jobs[m].reply.Broken? {
        assert LastBroken(jobs, symbol, m);
      } else {
        ErrorMeans(init, symbol);
        forall n: nat
          ensures LastBroken(jobs, symbol, n) <==> LastBroken(init, symbol, n)
        {
          BrokenBefore(jobs, symbol, n);
        }
        if exists n: nat :: LastBroken(init, symbol, n) {
          var n: nat :| LastBroken(init, symbol, n) && ErrorOf(init, symbol) == init[n].reply.message;
          assert jobs[n] == init[n];
        }
      }
    }
  }

  lemma BrokenBefore(jobs: seq<Job>, symbol: string, n: nat)
    requires jobs != []
    requires var last := jobs[|jobs| - 1]; last.query.symbol == symbol ==> last.reply.Articles?
    ensures LastBroken(jobs, symbol, n) <==> LastBroken(jobs[..|jobs| - 1], symbol, n)
  {
    var init := jobs[..|jobs| - 1];
    assert forall m | 0 <= m < |init| :: init[m] == jobs[m];
  }

  /** A symbol's final report: how many queries it ran, the message of the last that broke, and
      its catalysts: no signal twice, each made by a titled article of one of its queries, for
      every such article a duplicate at least as confident, and of equally confident ones the
      first in the order of queries and articles. */
  lemma ReportMeans(jobs: seq<Job>, symbol: string)
    ensures var r := Final(jobs, symbol);
            && r.queriesRun == |Filter((j: Job) => j.query.symbol == symbol, jobs)|
            && r.error == ErrorOf(jobs, symbol)
            && r.fromArticles == |r.catalysts|
            && (forall m, n | 0 <= m < n < |r.catalysts| :: !Duplicates(r.catalysts[m], r.catalysts[n]))
            && (forall c | c in r.catalysts :: Found(jobs, symbol, c))
            && (forall c | c in r.catalysts :: FirstBest(Flatten(Batches(jobs, symbol)), c))
            && (forall c | Found(jobs, symbol, c) ::
                  exists d :: d in r.catalysts && Duplicates(d, c) && d.confidence >= c.confidence)
            && DatedFirst(r.catalysts)
  {
    hide Deduped, Duplicates, Found, DatedFirst, FirstBest, Batches, Flatten;
    var all := Flatten(Batches(jobs, symbol));
    RunsAreFiltered(jobs, symbol);
    DedupedIsBestAndSorted(all);
    forall c
      ensures c in all <==> Found(jobs, symbol, c)
    {
      BatchesFound(jobs, symbol, c);
    }
    forall c | c in Deduped(all)
      ensures c in all
    {
      BestIsMember(all, c);
    }
    forall c | Found(jobs, symbol, c)
      ensures exists d :: d in Deduped(all) && Duplicates(d, c) && d.confidence >= c.confidence
    {
      var d :| d in Deduped(all) && Duplicates(d, c);
      MostConfident(all, d, c);
    }
  }

  lemma BestIsMember(cs: seq<Catalyst>, c: Catalyst)
    requires FirstBest(cs, c)
    ensures c in cs
  {
  }

  lemma MostConfident(cs: seq<Catalyst>, d: Catalyst, c: Catalyst)
    requires c in cs && Duplicates(d, c) && FirstBest(cs, d)
    ensures d.confidence >= c.confidence
  {
    hide SameLetter;
    var i :| 0 <= i < |cs| && cs[i] == d && IsFirstBest(cs, i);
    var j :| 0 <= j < |cs| && cs[j] == c;
    SameKeyIff(d, c);
    SameKeyIff(c, d);
  }
}
