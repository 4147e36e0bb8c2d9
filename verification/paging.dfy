/** Paging through the search endpoint for one formula pair. Each request
    goes through the retrying GET; request `j` is answered by the `j`-th
    entry of a transcript of attempt outcomes. Since the `j`-th answer does
    not depend on the cursor sent, the loop is modelled over the answers of
    all requests, computed up front. */
module Paging {
  import opened Results
  import opened Json
  import opened Query
  import opened Retry
  import opened Records

  const PerPage: nat := 200
  const Retries: int := 4
  const Selection: string := "id,doi,display_name,publication_year,primary_location"
  const StartCursor: Value := Str("*")

  /** The query parameters of one request (the URL before encoding). */
  datatype Request = Request(filter: string, perPage: nat, cursor: Value, mailto: string, select: string)

  function RequestFor(query: string, cursor: Value, mailto: string): Request {
    Request("fulltext.search:" + query, PerPage, cursor, mailto, Selection)
  }

  /** Why a pair's fetch raised: a request failed on every attempt, or a
      response did not have the shape the code indexes into. */
  datatype PairError =
    | Unreachable(request: Request, lastError: Option<string>)
    | Malformed(request: Request)

  /** What a successful fetch returns: the count and the rows, in order. */
  datatype Harvest = Harvest(count: int, works: seq<WorkRow>)

  /** The cursors of the requests sent, in order, and the fetch's result.
      The requests differ only in their cursor: request `k` of a pair's fetch
      is `RequestFor(query, cursors[k], mailto)`. */
  datatype Crawled = Crawled(cursors: seq<Value>, result: Result<Harvest, PairError>)

  /** One list of attempt outcomes per request, in request order. */
  type Transcript = seq<seq<Attempt>>

  function AttemptsAt(transcript: Transcript, j: nat): seq<Attempt> {
    if j < |transcript| then transcript[j] else []
  }

  /** `for item in results` followed by `item.get(...)`: a list yields its
      items; an empty dict or string yields nothing; a non-empty dict or
      string yields strings, on which `.get` raises; anything else is not
      iterable. */
  function RecordsIn(results: Value): Option<seq<Value>> {
    match results
    case Arr(items) => Some(items)
    case Obj(m) => if |m| == 0 then Some([]) else None
    case Str(s) => if s == "" then Some([]) else None
    case _ => None
  }

  /** What the loop body takes from one decoded response: `int(meta.count)`
      (`None` where `int` raises), the rows of the records, the next cursor
      and whether the loop goes on. */
  datatype Reply = Reply(countRead: Option<int>, rows: seq<WorkRow>, cursor: Value, more: bool)

  /** The loop body on a decoded response, apart from the count: `None`
      where indexing the response raises. */
  function Parse(pair: FormulaPair, data: Value): (r: Option<Reply>)
    ensures r.Some? ==> data.Obj?
    ensures r.Some? && r.value.more ==> Truthy(r.value.cursor)
    ensures r.Some? ==> AllCarry(r.value.rows, pair)
  {
    if !data.Obj? then None
    else
      var meta := GetOr(data.fields, "meta", Obj(map[]));
      if !meta.Obj? then None
      else
        var results := GetOr(data.fields, "results", Arr([]));
        match RecordsIn(results)
        case None => None
        case Some(items) =>
          match ExtractAll(pair, items)
          case None => None
          case Some(rows) =>
            var next := GetOr(meta.fields, "next_cursor", Null);
            var cursor := if Truthy(next) then next else Str("");
            Some(Reply(ToInt(GetOr(meta.fields, "count", Int(0))), rows, cursor, Truthy(results) && Truthy(cursor)))
  }

  /** What one request comes to: no response within the retry limit (with
      the last attempt's error), a response the loop body cannot process,
      or a processed response. */
  datatype Answer = NoAnswer(lastError: Option<string>) | Garbled | Answered(reply: Reply)

  function AnswerTo(pair: FormulaPair, attempts: seq<Attempt>): (a: Answer)
    ensures a.NoAnswer? ==>
      AttemptAt(attempts, Retries - 1).Failed? && a.lastError == Some(AttemptAt(attempts, Retries - 1).reason)
    ensures a.Answered? ==> AllCarry(a.reply.rows, pair)
    ensures a.NoAnswer? <==> Withholds(attempts)
    ensures FirstBody(attempts, Retries).Some? ==>
      a == match Parse(pair, FirstBody(attempts, Retries).value)
           case None => Garbled
           case Some(r) => Answered(r)
  {
    GetReturnsFirstBody((), Retries, attempts);
    match Get((), Retries, attempts).outcome
    case Failure(e) => NoAnswer(e.lastError)
    case Success(data) =>
      match Parse(pair, data)
      case None => Garbled
      case Some(r) => Answered(r)
  }

  /** The answer to every request of the transcript, in request order. */
  function Answers(pair: FormulaPair, transcript: Transcript): (answers: seq<Answer>)
    ensures |answers| == |transcript|
    ensures forall j :: 0 <= j < |transcript| ==> answers[j] == AnswerTo(pair, transcript[j])
  {
    seq(|transcript|, j requires 0 <= j < |transcript| => AnswerTo(pair, transcript[j]))
  }

  /** The answer to a request past the end of the transcript. */
  const Unanswered: Answer := NoAnswer(Some(Silent.reason))

  function AnswerAt(answers: seq<Answer>, j: nat): Answer {
    if j < |answers| then answers[j] else Unanswered
  }

  /** A request with no attempt outcome at all is unanswered. */
  lemma NothingIsUnanswered(pair: FormulaPair)
    ensures AnswerTo(pair, []) == Unanswered
  {
  }

  /** The answers of the transcript extended with `Unanswered` forever are
      the answers to its attempt lists extended with empty ones. */
  lemma AnswerAtAnswers(pair: FormulaPair, transcript: Transcript, j: nat)
    ensures AnswerAt(Answers(pair, transcript), j) == AnswerTo(pair, AttemptsAt(transcript, j))
  {
    if j >= |transcript| {
      NothingIsUnanswered(pair);
    }
  }

  /** The count after an answered request: read only while it is 0. */
  function CountAfterReply(count: int, r: Reply): int
    requires count != 0 || r.countRead.Some?
  {
    if count == 0 then r.countRead.value else count
  }

  /** The `while cursor` loop from request `j` on, given the cursor and the
      count so far: the cursors it sends and, if it returns, the count and
      the rows of the answers from `j` on. */
  function Crawl(mailto: string, query: string, answers: seq<Answer>, j: nat,
                 cursor: Value, count: int): (c: Crawled)
    ensures 1 <= |c.cursors| <= Max0(|answers| - j) + 1
    ensures c.cursors[0] == cursor
    ensures c.result.Failure? ==> c.result.error.request == RequestFor(query, c.cursors[|c.cursors| - 1], mailto)
    ensures c.result.Success? ==> |c.cursors| <= |answers| - j
    ensures c.result.Success? && count != 0 ==> c.result.value.count == count
    decreases |answers| - j
  {
    var request := RequestFor(query, cursor, mailto);
    match AnswerAt(answers, j)
    case NoAnswer(e) => Crawled([cursor], Failure(Unreachable(request, e)))
    case Garbled => Crawled([cursor], Failure(Malformed(request)))
    case Answered(r) =>
      if count == 0 && r.countRead.None? then Crawled([cursor], Failure(Malformed(request)))
      else if r.more then
        var rest := Crawl(mailto, query, answers, j + 1, r.cursor, CountAfterReply(count, r));
        Crawled([cursor] + rest.cursors,
                match rest.result
                case Success(h) => Success(Harvest(h.count, r.rows + h.works))
                case Failure(e) => Failure(e))
      else
        Crawled([cursor], Success(Harvest(CountAfterReply(count, r), r.rows)))
  }

  /** Every answered request's rows carry the pair. */
  predicate AnswersCarry(pair: FormulaPair, answers: seq<Answer>) {
    forall j :: 0 <= j < |answers| && answers[j].Answered? ==> AllCarry(answers[j].reply.rows, pair)
  }

  lemma AnswersCarryPair(pair: FormulaPair, transcript: Transcript)
    ensures AnswersCarry(pair, Answers(pair, transcript))
  {
  }

  /** The rows of a fetch are rows of its answers, so they carry the pair. */
  lemma {:induction false} CrawlCarries(pair: FormulaPair, mailto: string, query: string, answers: seq<Answer>,
                                        j: nat, cursor: Value, count: int)
    requires AnswersCarry(pair, answers)
    ensures Crawl(mailto, query, answers, j, cursor, count).result.Success? ==>
      AllCarry(Crawl(mailto, query, answers, j, cursor, count).result.value.works, pair)
    decreases |answers| - j
  {
    if j < |answers| && answers[j].Answered? {
      var r := answers[j].reply;
      if (count != 0 || r.countRead.Some?) && r.more {
        CrawlCarries(pair, mailto, query, answers, j + 1, r.cursor, CountAfterReply(count, r));
      }
    }
  }

  /** All the pages of one pair, starting from the cursor `*` and count 0.
      Every row carries the pair; a failure names the last request sent. */
  function Fetch(pair: FormulaPair, mailto: string, transcript: Transcript): (c: Crawled)
    ensures 1 <= |c.cursors| <= |transcript| + 1
    ensures c.cursors[0] == StartCursor
    ensures c.result.Failure? ==>
      c.result.error.request == RequestFor(BuildQuery(pair.left, pair.right), c.cursors[|c.cursors| - 1], mailto)
    ensures c.result.Success? ==> |c.cursors| <= |transcript|
    ensures c.result.Success? ==> AllCarry(c.result.value.works, pair)
  {
    var answers := Answers(pair, transcript);
    AnswersCarryPair(pair, transcript);
    CrawlCarries(pair, mailto, BuildQuery(pair.left, pair.right), answers, 0, StartCursor, 0);
    Crawl(mailto, BuildQuery(pair.left, pair.right), answers, 0, StartCursor, 0)
  }

  // ---------------------------------------------------------------------
  // Well-shaped responses, as the service documents them

  /** The `meta.next_cursor` of a response: left out, null, or a token. */
  datatype Next = Omitted | NullCursor | Token(s: string)

  /** A well-shaped response: an optional `meta.count`, the next cursor and the records. */
  datatype Page = Page(count: Option<int>, next: Next, records: seq<Value>)

  function PageJson(p: Page): Value {
    var counted: map<string, Value> := if p.count.Some? then map["count" := Int(p.count.value)] else map[];
    var meta: map<string, Value> :=
      match p.next
      case Omitted => counted
      case NullCursor => counted["next_cursor" := Null]
      case Token(s) => counted["next_cursor" := Str(s)];
    Obj(map["meta" := Obj(meta), "results" := Arr(p.records)])
  }

  /** The loop goes on after this page: a non-empty cursor and a non-empty page. */
  predicate Continues(p: Page) {
    p.next.Token? && p.next.s != "" && |p.records| > 0
  }

  predicate AllExtractable(records: seq<Value>) {
    forall i :: 0 <= i < |records| ==> Extractable(records[i])
  }

  function CountOf(p: Page): int {
    if p.count.Some? then p.count.value else 0
  }

  /** The first non-zero `meta.count` among the pages, or 0. */
  function FirstCount(pages: seq<Page>): int {
    if |pages| == 0 then 0
    else if CountOf(pages[0]) != 0 then CountOf(pages[0])
    else FirstCount(pages[1..])
  }

  /** The rows of all records of the pages, page after page. */
  function RowsOf(pair: FormulaPair, pages: seq<Page>): seq<WorkRow>
    requires forall k :: 0 <= k < |pages| ==> AllExtractable(pages[k].records)
  {
    if |pages| == 0 then []
    else
      assert AllExtractable(pages[0].records);
      ExtractAll(pair, pages[0].records).value + RowsOf(pair, pages[1..])
  }

  /** The cursor the loop keeps after a well-shaped page. */
  function CursorAfter(p: Page): Value {
    if p.next.Token? && p.next.s != "" then Str(p.next.s) else Str("")
  }

  /** The count after a well-shaped page. */
  function CountAfter(count: int, p: Page): int {
    if count == 0 then CountOf(p) else count
  }

  /** The attempts answer the request with `body` within the retry limit. */
  predicate Delivers(attempts: seq<Attempt>, body: Value) {
    FirstBody(attempts, Retries) == Some(body)
  }

  /** No attempt within the retry limit answers the request. */
  predicate Withholds(attempts: seq<Attempt>) {
    FirstBody(attempts, Retries) == None
  }

  /** What the loop body makes of a well-shaped page. */
  function PageReply(pair: FormulaPair, p: Page): Reply
    requires AllExtractable(p.records)
  {
    Reply(Some(CountOf(p)), ExtractAll(pair, p.records).value, CursorAfter(p), Continues(p))
  }

  /** On a well-shaped page the loop body reads the page's count (0 when it
      is left out), turns every record into a row, keeps the page's cursor
      (or "" when it is left out, null or empty) and goes on exactly when the
      page continues. */
  lemma ParsePage(pair: FormulaPair, p: Page)
    requires AllExtractable(p.records)
    ensures Parse(pair, PageJson(p)) == Some(PageReply(pair, p))
  {
    var data := PageJson(p);
    assert data.fields["results"] == Arr(p.records);
    assert data.fields["meta"].Obj?;
  }

  /** A delivered well-shaped page is answered with what the loop body makes of it. */
  lemma AnswerPage(pair: FormulaPair, attempts: seq<Attempt>, p: Page)
    requires Delivers(attempts, PageJson(p))
    requires AllExtractable(p.records)
    ensures AnswerTo(pair, attempts) == Answered(PageReply(pair, p))
  {
    GetReturnsFirstBody((), Retries, attempts);
    ParsePage(pair, p);
  }

  /** A request no attempt answers within the limit is unanswered. */
  lemma AnswerWithheld(pair: FormulaPair, attempts: seq<Attempt>)
    requires Withholds(attempts)
    ensures AnswerTo(pair, attempts).NoAnswer?
  {
    GetReturnsFirstBody((), Retries, attempts);
  }

  /** The answers `lo..hi` of a transcript whose requests deliver the pages. */
  lemma AnswersDelivered(pair: FormulaPair, transcript: Transcript, pages: seq<Page>, lo: nat, hi: nat)
    requires hi <= |pages|
    requires forall k :: lo <= k < hi ==> Delivers(AttemptsAt(transcript, k), PageJson(pages[k]))
    requires forall k :: lo <= k < hi ==> AllExtractable(pages[k].records)
    ensures forall k :: lo <= k < hi ==>
      AnswerAt(Answers(pair, transcript), k) == Answered(PageReply(pair, pages[k]))
  {
    forall k | lo <= k < hi
      ensures AnswerAt(Answers(pair, transcript), k) == Answered(PageReply(pair, pages[k]))
    {
      AnswerAtAnswers(pair, transcript, k);
      AnswerPage(pair, AttemptsAt(transcript, k), pages[k]);
    }
  }

  /** One turn of the loop on an answered well-shaped page: it either ends
      the fetch with the page's rows or puts them in front of the rest. */
  lemma StepPage(pair: FormulaPair, mailto: string, query: string, answers: seq<Answer>, j: nat,
                 cursor: Value, count: int, p: Page)
    requires AllExtractable(p.records)
    requires AnswerAt(answers, j) == Answered(PageReply(pair, p))
    ensures !Continues(p) ==>
      Crawl(mailto, query, answers, j, cursor, count) ==
        Crawled([cursor], Success(Harvest(CountAfter(count, p), ExtractAll(pair, p.records).value)))
    ensures Continues(p) ==>
      var rest := Crawl(mailto, query, answers, j + 1, CursorAfter(p), CountAfter(count, p));
      Crawl(mailto, query, answers, j, cursor, count) ==
        Crawled([cursor] + rest.cursors,
                match rest.result
                case Success(h) => Success(Harvest(h.count, ExtractAll(pair, p.records).value + h.works))
                case Failure(e) => Failure(e))
  {
  }

  /** Splitting off the first of the pages `j..n`. */
  lemma SliceStep(pair: FormulaPair, pages: seq<Page>, j: nat, n: nat)
    requires j <= n < |pages|
    requires forall k :: j <= k <= n ==> AllExtractable(pages[k].records)
    ensures FirstCount(pages[j..n + 1]) ==
      if CountOf(pages[j]) != 0 then CountOf(pages[j])
      else if j == n then 0 else FirstCount(pages[j + 1..n + 1])
    ensures RowsOf(pair, pages[j..n + 1]) ==
      ExtractAll(pair, pages[j].records).value + (if j == n then [] else RowsOf(pair, pages[j + 1..n + 1]))
  {
    var rest := pages[j..n + 1];
    assert rest[0] == pages[j];
    if j == n {
      assert rest[1..] == [];
    } else {
      assert rest[1..] == pages[j + 1..n + 1];
    }
  }

  lemma {:induction false} CrawlDelivered(pair: FormulaPair, mailto: string, query: string,
                                          answers: seq<Answer>, pages: seq<Page>, n: nat, j: nat,
                                          cursor: Value, count: int)
    requires j <= n < |pages|
    requires forall k :: j <= k < n ==> Continues(pages[k])
    requires !Continues(pages[n])
    requires forall k :: j <= k <= n ==> AllExtractable(pages[k].records)
    requires forall k :: j <= k <= n ==> AnswerAt(answers, k) == Answered(PageReply(pair, pages[k]))
    ensures Crawl(mailto, query, answers, j, cursor, count).result ==
      Success(Harvest(if count != 0 then count else FirstCount(pages[j..n + 1]), RowsOf(pair, pages[j..n + 1])))
    decreases n - j
  {
    StepPage(pair, mailto, query, answers, j, cursor, count, pages[j]);
    SliceStep(pair, pages, j, n);
    var rows := ExtractAll(pair, pages[j].records).value;
    var here := Crawl(mailto, query, answers, j, cursor, count);
    if j == n {
      assert here.result == Success(Harvest(CountAfter(count, pages[j]), rows));
      assert rows + [] == rows;
    } else {
      var count' := CountAfter(count, pages[j]);
      CrawlDelivered(pair, mailto, query, answers, pages, n, j + 1, CursorAfter(pages[j]), count');
      var later := Crawl(mailto, query, answers, j + 1, CursorAfter(pages[j]), count');
      assert later.result.Success?;
      assert here.result == Success(Harvest(later.result.value.count, rows + later.result.value.works));
    }
  }

  /** The cursors of the requests from `j` to the stopping page `n`: the
      current cursor, then, in turn, the cursor of each page before them. */
  predicate CursorsFollow(cursors: seq<Value>, cursor: Value, pages: seq<Page>, j: nat, n: nat)
    requires j <= n < |pages|
  {
    && |cursors| == n + 1 - j
    && cursors[0] == cursor
    && forall k :: 0 < k <= n - j ==> cursors[k] == CursorAfter(pages[j + k - 1])
  }

  /** From request `j` on, the loop sends exactly one request per page up to
      the stopping page, each with the cursor `CursorsFollow` describes. */
  lemma {:induction false} CrawlDeliveredCursors(pair: FormulaPair, mailto: string, query: string,
                                                 answers: seq<Answer>, pages: seq<Page>, n: nat, j: nat,
                                                 cursor: Value, count: int)
    requires j <= n < |pages|
    requires forall k :: j <= k < n ==> Continues(pages[k])
    requires !Continues(pages[n])
    requires forall k :: j <= k <= n ==> AllExtractable(pages[k].records)
    requires forall k :: j <= k <= n ==> AnswerAt(answers, k) == Answered(PageReply(pair, pages[k]))
    ensures CursorsFollow(Crawl(mailto, query, answers, j, cursor, count).cursors, cursor, pages, j, n)
    decreases n - j
  {
    StepPage(pair, mailto, query, answers, j, cursor, count, pages[j]);
    if j < n {
      var cursor' := CursorAfter(pages[j]);
      var count' := CountAfter(count, pages[j]);
      CrawlDeliveredCursors(pair, mailto, query, answers, pages, n, j + 1, cursor', count');
      var rest := Crawl(mailto, query, answers, j + 1, cursor', count').cursors;
      CursorsShift(pages, j, n, cursor, rest);
    }
  }

  /** Putting the current cursor in front of the cursors sent from request `j + 1` on. */
  lemma CursorsShift(pages: seq<Page>, j: nat, n: nat, cursor: Value, rest: seq<Value>)
    requires j < n < |pages|
    requires CursorsFollow(rest, CursorAfter(pages[j]), pages, j + 1, n)
    ensures CursorsFollow([cursor] + rest, cursor, pages, j, n)
  {
  }

  /** When every page up to page `n` arrives, the pages before `n` continue
      and page `n` does not, the fetch stops right after page `n`: it made
      `n + 1` requests, the first with cursor `*` and each later one with the
      previous page's cursor, its count is the first non-zero `meta.count`
      among those pages, and its rows are all their records' rows in order,
      page `n`'s included. */
  lemma FetchDelivered(pair: FormulaPair, mailto: string, transcript: Transcript, pages: seq<Page>, n: nat)
    requires n < |pages|
    requires forall k :: 0 <= k < n ==> Continues(pages[k])
    requires !Continues(pages[n])
    requires forall k :: 0 <= k <= n ==> Delivers(AttemptsAt(transcript, k), PageJson(pages[k]))
    requires forall k :: 0 <= k <= n ==> AllExtractable(pages[k].records)
    ensures Fetch(pair, mailto, transcript).result ==
      Success(Harvest(FirstCount(pages[..n + 1]), RowsOf(pair, pages[..n + 1])))
    ensures |Fetch(pair, mailto, transcript).cursors| == n + 1
    ensures Fetch(pair, mailto, transcript).cursors[0] == StartCursor
    ensures forall k :: 0 < k <= n ==> Fetch(pair, mailto, transcript).cursors[k] == CursorAfter(pages[k - 1])
  {
    var answers := Answers(pair, transcript);
    var query := BuildQuery(pair.left, pair.right);
    AnswersDelivered(pair, transcript, pages, 0, n + 1);
    CrawlDelivered(pair, mailto, query, answers, pages, n, 0, StartCursor, 0);
    CrawlDeliveredCursors(pair, mailto, query, answers, pages, n, 0, StartCursor, 0);
    assert pages[0..n + 1] == pages[..n + 1];
  }

  lemma {:induction false} CrawlRunsOut(pair: FormulaPair, mailto: string, query: string,
                                        answers: seq<Answer>, pages: seq<Page>, j: nat,
                                        cursor: Value, count: int)
    requires j <= |pages|
    requires forall k :: j <= k < |pages| ==> Continues(pages[k])
    requires forall k :: j <= k < |pages| ==> AllExtractable(pages[k].records)
    requires forall k :: j <= k < |pages| ==> AnswerAt(answers, k) == Answered(PageReply(pair, pages[k]))
    requires AnswerAt(answers, |pages|).NoAnswer?
    ensures Crawl(mailto, query, answers, j, cursor, count).result.Failure?
    ensures Crawl(mailto, query, answers, j, cursor, count).result.error.Unreachable?
    ensures |Crawl(mailto, query, answers, j, cursor, count).cursors| == |pages| + 1 - j
    decreases |pages| - j
  {
    if j < |pages| {
      StepPage(pair, mailto, query, answers, j, cursor, count, pages[j]);
      CrawlRunsOut(pair, mailto, query, answers, pages, j + 1, CursorAfter(pages[j]), CountAfter(count, pages[j]));
    }
  }

  /** When every page arrives and continues but the request after the last
      one gets no response within the retry limit, the fetch fails as
      unreachable after `|pages| + 1` requests: the rows of the pages already
      fetched are not returned. */
  lemma FetchRunsOut(pair: FormulaPair, mailto: string, transcript: Transcript, pages: seq<Page>)
    requires forall k :: 0 <= k < |pages| ==> Continues(pages[k])
    requires forall k :: 0 <= k < |pages| ==> Delivers(AttemptsAt(transcript, k), PageJson(pages[k]))
    requires forall k :: 0 <= k < |pages| ==> AllExtractable(pages[k].records)
    requires Withholds(AttemptsAt(transcript, |pages|))
    ensures Fetch(pair, mailto, transcript).result.Failure?
    ensures Fetch(pair, mailto, transcript).result.error.Unreachable?
    ensures |Fetch(pair, mailto, transcript).cursors| == |pages| + 1
  {
    var answers := Answers(pair, transcript);
    AnswersDelivered(pair, transcript, pages, 0, |pages|);
    AnswerAtAnswers(pair, transcript, |pages|);
    AnswerWithheld(pair, AttemptsAt(transcript, |pages|));
    CrawlRunsOut(pair, mailto, BuildQuery(pair.left, pair.right), answers, pages, 0, StartCursor, 0);
  }
}
