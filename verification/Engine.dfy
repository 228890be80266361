/**
 * The recipe engine: pagination confined to the pinned endpoint, extraction,
 * and threading. The provider is any function from page number to answer.
 */
module Engine {
  import opened Util
  import opened Json
  import opened Recipes
  import opened Text

  type Record = map<string, Json>

  /** What one request came back with; the link is the declared rel of the Link header. */
  datatype Answer = Refused | Answered(payload: Json, link: Option<string>)

  type Provider = nat -> Answer

  datatype Failure =
    | RequestRefused
    | Undeclared
    | NoRecords
    | NotConfined
    | Invariant
    | PageCap
    | NoSuchRecipe
    | Unresolved(producerRan: bool)

  /** A URL rebuilt from vetted parts. */
  datatype Target = Target(scheme: string, netloc: string, path: string, query: string)

  datatype Request = Request(url: Target, params: map<string, Json>)

  // ---- confinement -------------------------------------------------------

  /** All closing dots are taken off, and nothing else. */
  function StripDots(host: string): (stripped: string)
    ensures stripped <= host && (stripped == [] || stripped[|stripped| - 1] != '.')
    ensures forall i | |stripped| <= i < |host| :: host[i] == '.'
    decreases |host|
  {
    if host != [] && host[|host| - 1] == '.' then StripDots(host[..|host| - 1]) else host
  }

  /** A next URL goes to the pinned scheme and authority, and to the pinned or a declared path. */
  predicate Confined(pinned: Url, allowed: seq<string>, t: Target) {
    && t.scheme == pinned.scheme && t.netloc == pinned.netloc
    && (t.path == pinned.path || t.path in allowed)
  }

  /** Only the candidate's query is adopted, and its path when declared; all else is the pinned URL's. */
  function ConfineNextUrl(candidate: Option<Url>, pinned: Url, allowed: seq<string>): (r: Result<Target, Failure>)
    ensures r.Ok? ==> Confined(pinned, allowed, r.value)
    ensures r.Ok? ==> candidate.Some? && r.value.query == candidate.value.query && r.value.path == candidate.value.path
    ensures r.Ok? ==> candidate.value.scheme == "https" && candidate.value.user == [] && candidate.value.password == []
    ensures r.Ok? ==> StripDots(candidate.value.host) == StripDots(pinned.host) && candidate.value.port == pinned.port
    ensures r.Ok? <==>
      && candidate.Some? && candidate.value.scheme == "https"
      && candidate.value.user == [] && candidate.value.password == []
      && StripDots(candidate.value.host) == StripDots(pinned.host) != []
      && candidate.value.port.Ok? && candidate.value.port == pinned.port
      && (candidate.value.path == pinned.path || candidate.value.path in allowed)
    ensures r.Err? ==> r.error == NotConfined
  {
    match candidate
    case None => Err(NotConfined)
    case Some(u) =>
      if || u.scheme != "https"
         || u.user != [] || u.password != []
         || StripDots(u.host) == [] || StripDots(u.host) != StripDots(pinned.host)
         || u.port.Err? || u.port != pinned.port
         || (u.path != pinned.path && u.path !in allowed)
      then Err(NotConfined)
      else Ok(Target(pinned.scheme, pinned.netloc, u.path, u.query))
  }

  // ---- extraction --------------------------------------------------------

  /** The objects of a list, in order; anything else in it is dropped. */
  function Objects(items: seq<Json>): (rows: seq<Record>)
    ensures |rows| <= |items|
    ensures |rows| == |items| <==> forall i | 0 <= i < |items| :: items[i].Obj?
    ensures |rows| == |items| ==> forall i | 0 <= i < |items| :: items[i] == Obj(rows[i])
  {
    if items == [] then []
    else if items[0].Obj? then [items[0].fields] + Objects(items[1..])
    else Objects(items[1..])
  }

  /** An object is one row, anything else none. */
  lemma ObjectsOfOne(v: Json)
    ensures Objects([v]) == if v.Obj? then [v.fields] else []
  {
    assert [v][1..] == [] && Objects([]) == [];
  }

  /** Item by item, left to right. */
  lemma {:induction false} ObjectsInTwo(a: seq<Json>, b: seq<Json>)
    ensures Objects(a + b) == Objects(a) + Objects(b)
  {
    if a == [] {
      assert a + b == b;
    } else {
      var rest := a[1..];
      ObjectsInTwo(rest, b);
      ObjectsStep(a[0], rest + b);
      ObjectsStep(a[0], rest);
      InFront(a, b);
      Regrouped(if a[0].Obj? then [a[0].fields] else [], Objects(rest), Objects(b));
    }
  }

  lemma InFront<T>(a: seq<T>, b: seq<T>)
    requires a != []
    ensures [a[0]] + a[1..] == a && [a[0]] + (a[1..] + b) == a + b
  {
  }

  lemma Regrouped<T>(a: seq<T>, b: seq<T>, c: seq<T>)
    ensures a + (b + c) == (a + b) + c
  {
  }

  lemma ObjectsStep(v: Json, rest: seq<Json>)
    ensures Objects([v] + rest) == (if v.Obj? then [v.fields] else []) + Objects(rest)
  {
    assert ([v] + rest)[1..] == rest;
  }

  function ArrayFields(fields: map<string, Json>): map<string, seq<Json>> {
    map k | k in fields && fields[k].Arr? :: fields[k].items
  }

  ghost predicate EqualLengths(arrays: map<string, seq<Json>>, n: nat) {
    forall k | k in arrays :: |arrays[k]| == n
  }

  function LengthsOf(arrays: map<string, seq<Json>>): set<nat> { set k | k in arrays :: |arrays[k]| }

  function RowAt(arrays: map<string, seq<Json>>, i: nat): Record {
    map k | k in arrays && i < |arrays[k]| :: arrays[k][i]
  }

  /** Parallel arrays, at least one, all of one length. */
  ghost predicate Rectangular(arrays: map<string, seq<Json>>) {
    arrays != map[] && exists n: nat :: EqualLengths(arrays, n)
  }

  /** Parallel arrays turned into rows; arrays of unequal length are refused, not truncated. */
  function Transpose(arrays: map<string, seq<Json>>): (r: Result<seq<Record>, Failure>)
    ensures r.Ok? <==> Rectangular(arrays)
    ensures r.Ok? ==> EqualLengths(arrays, |r.value|)
    ensures r.Ok? ==> forall i, k | 0 <= i < |r.value| && k in arrays :: k in r.value[i] && r.value[i][k] == arrays[k][i]
    ensures r.Ok? ==> forall i | 0 <= i < |r.value| :: r.value[i].Keys == arrays.Keys
  {
    var lengths := LengthsOf(arrays);
    if arrays == map[] then Err(NoRecords)
    else if !(forall j, k | j in arrays && k in arrays :: |arrays[j]| == |arrays[k]|) then
      (assert forall n: nat | EqualLengths(arrays, n) :: false; Err(NoRecords))
    else
      ghost var some :| some in arrays;
      assert EqualLengths(arrays, |arrays[some]|);
      var n: nat :| n in lengths && forall m | m in lengths :: m == n;
      assert n == |arrays[some]|;
      Ok(seq(n, i requires 0 <= i < n => RowAt(arrays, i)))
  }

  function ExtractRows(extract: Extract, payload: Json): Result<seq<Record>, Failure> {
    match (extract.shape, Locate(payload, extract.path))
    case (Records, Arr(items)) => Ok(Objects(items))
    case (Columnar, Obj(fields)) => Transpose(ArrayFields(fields))
    case (_, _) => Err(NoRecords)
  }

  /** The payload has a list at the extract's path, or at least one array there and all of one length. */
  predicate Extracts(extract: Extract, payload: Json) {
    var node := Locate(payload, extract.path);
    match extract.shape
    case Records => node.Arr?
    case Columnar =>
      && node.Obj? && (exists k | k in node.fields :: node.fields[k].Arr?)
      && forall j, k | j in node.fields && k in node.fields && node.fields[j].Arr? && node.fields[k].Arr? ::
           |node.fields[j].items| == |node.fields[k].items|
  }

  lemma ExtractsExactly(extract: Extract, payload: Json)
    ensures ExtractRows(extract, payload).Ok? <==> Extracts(extract, payload)
  {
    var node := Locate(payload, extract.path);
    if extract.shape.Columnar? && node.Obj? {
      var arrays := ArrayFields(node.fields);
      if Extracts(extract, payload) {
        var some :| some in node.fields && node.fields[some].Arr?;
        assert some in arrays && EqualLengths(arrays, |arrays[some]|);
      }
      if Rectangular(arrays) {
        var n: nat :| EqualLengths(arrays, n);
        var some :| some in arrays;
        assert forall k | k in node.fields && node.fields[k].Arr? :: k in arrays && |arrays[k]| == n;
      }
    }
  }

  // ---- pagination --------------------------------------------------------

  const LINK_KEY := "__link__"

  /** Parameters for the next page; None, or an empty link, when the sequence is complete. */
  function NextPageParams(p: Pagination, payload: Json, link: Option<string>, page: nat)
    : Result<Option<map<string, Json>>, Failure>
  {
    match p.kind
    case Single => Ok(None)
    case ByCursor =>
      if p.cursorParam.None? then Err(Invariant)
      else
        var cursor := Locate(payload, if p.cursorPath.Some? then p.cursorPath.value else "");
        if !Truthy(cursor) then Ok(None) else Ok(Some(map[p.cursorParam.value := cursor]))
    case ByNumber =>
      if p.pageParam.None? then Err(Invariant)
      else
        var params := map[p.pageParam.value := Num(page + 1)];
        if p.sizeParam.Some? && p.sizeParam.value != [] && Truthy(p.pageSize)
        then Ok(Some(params[p.sizeParam.value := p.pageSize])) else Ok(Some(params))
    case ByLink => Ok(Some(map[LINK_KEY := if link.Some? then Str(link.value) else Null]))
  }

  /** What one page leads to. */
  datatype Turn =
    | Raised(failure: Failure)
    | Ended(rows: seq<Record>)
    | Linked(rows: seq<Record>, url: Target)
    | Continued(rows: seq<Record>, params: map<string, Json>)

  /** Where a present next-page link leads. */
  function FollowLink(recipe: Recipe, rows: seq<Record>, link: Json, split: Splitter): Turn {
    if !link.Str? then Raised(NotConfined)
    else
      match ConfineNextUrl(split(link.s), recipe.pinned, recipe.pagination.allowedNextPaths)
      case Ok(url) => Linked(rows, url)
      case Err(e) => Raised(e)
  }

  function TurnOf(recipe: Recipe, split: Splitter, answer: Answer, page: nat): Turn {
    if answer.Refused? then Raised(RequestRefused)
    else
      match ExtractRows(recipe.extract, answer.payload)
      case Err(e) => Raised(e)
      case Ok(rows) =>
        match NextPageParams(recipe.pagination, answer.payload, answer.link, page)
        case Err(e) => Raised(e)
        case Ok(None) => Ended(rows)
        case Ok(Some(next)) =>
          if LINK_KEY !in next then Continued(rows, next)
          else if !Truthy(next[LINK_KEY]) then Ended(rows)
          else FollowLink(recipe, rows, next[LINK_KEY], split)
  }

  /** The turns of pages 1, 2, and so on, counted from zero. */
  function Turns(recipe: Recipe, split: Splitter, provider: Provider): nat -> Turn {
    (k: nat) => TurnOf(recipe, split, provider(k + 1), k + 1)
  }

  function Payloads(provider: Provider): nat -> Json {
    (k: nat) => if provider(k + 1).Answered? then provider(k + 1).payload else Null
  }

  predicate GoesOn(t: Turn) { t.Linked? || t.Continued? }

  /** The first k pages each lead to another. */
  ghost predicate GoesOnTo(turns: nat -> Turn, k: nat) {
    forall i: nat | i < k :: GoesOn(turns(i))
  }

  /** The k-th page after the first is the last. */
  ghost predicate EndsAt(turns: nat -> Turn, k: nat) { GoesOnTo(turns, k) && turns(k).Ended? }

  /** The extracts of the first k pages, in order. */
  function RowsTo(turns: nat -> Turn, k: nat): seq<Record> {
    if k == 0 then [] else RowsTo(turns, k - 1) + RowsOf(turns(k - 1))
  }

  /** The request after k pages, as they left the URL and the parameters. */
  function RequestAt(first: Request, turns: nat -> Turn, k: nat): Request {
    if k == 0 then first
    else
      After(RequestAt(first, turns, k - 1), turns(k - 1))
  }

  /** The next request: a link replaces the URL, parameters are added to those sent so far. */
  function After(before: Request, t: Turn): (next: Request)
    ensures next.url == if t.Linked? then t.url else before.url
    ensures next.params.Keys == before.params.Keys + if t.Continued? then t.params.Keys else {}
    ensures forall k | k in before.params && (t.Continued? ==> k !in t.params) :: next.params[k] == before.params[k]
    ensures t.Continued? ==> forall k | k in t.params :: next.params[k] == t.params[k]
  {
    match t
    case Linked(_, url) => before.(url := url)
    case Continued(_, next) => before.(params := before.params + next)
    case _ => before
  }

  function RowsOf(t: Turn): seq<Record> { if t.Raised? then [] else t.rows }

  /** Pages are asked for until one does not go on, or the cap is hit. */
  ghost predicate Stopped(turns: nat -> Turn, cap: nat, made: nat, r: Result<(seq<Record>, Json), Failure>) {
    if r == Err(PageCap) then made == cap && GoesOnTo(turns, made)
    else
      && 1 <= made <= cap && GoesOnTo(turns, made - 1)
      && match r
         case Err(e) => turns(made - 1) == Raised(e)
         case Ok(v) => turns(made - 1).Ended? && v.0 == RowsTo(turns, made) && v.1 != Null
  }

  /** The requests made so far, each as the pages before it left it. */
  ghost predicate Asked(requests: seq<Request>, first: Request, turns: nat -> Turn) {
    forall i | 0 <= i < |requests| :: requests[i] == RequestAt(first, turns, i)
  }

  lemma AskedOnce(requests: seq<Request>, first: Request, turns: nat -> Turn, request: Request)
    requires Asked(requests, first, turns) && request == RequestAt(first, turns, |requests|)
    ensures Asked(requests + [request], first, turns)
  {
  }

  /** The page loop. */
  method RunPages(first: Request, turns: nat -> Turn, payloads: nat -> Json, cap: nat)
    returns (r: Result<(seq<Record>, Json), Failure>, requests: seq<Request>)
    requires forall k: nat :: turns(k) != Raised(PageCap) && (!turns(k).Raised? ==> payloads(k) != Null)
    ensures Stopped(turns, cap, |requests|, r)
    ensures Asked(requests, first, turns)
    ensures r.Ok? ==> r.value.1 == payloads(0)
  {
    requests := [];
    var records: seq<Record>, firstPayload := [], Null;
    var request := first;
    for page := 0 to cap
      invariant |requests| == page && GoesOnTo(turns, page) && Asked(requests, first, turns)
      invariant request == RequestAt(first, turns, page)
      invariant records == RowsTo(turns, page)
      invariant if page == 0 then firstPayload == Null else firstPayload == payloads(0) != Null
    {
      AskedOnce(requests, first, turns, request);
      requests := requests + [request];
      var turn := turns(page);
      if turn.Raised? {
        return Err(turn.failure), requests;
      }
      if firstPayload == Null {
        firstPayload := payloads(page);
      }
      records := records + turn.rows;
      if turn.Ended? {
        return Ok((records, firstPayload)), requests;
      }
      request := After(request, turn);
    }
    return Err(PageCap), requests;
  }

  lemma StopsOnce(turns: nat -> Turn, cap: nat, made: nat, r: Result<(seq<Record>, Json), Failure>)
    requires Stopped(turns, cap, made, r)
    ensures r.Ok? <==> exists k: nat :: k < cap && EndsAt(turns, k)
  {
    if r.Ok? {
      assert EndsAt(turns, made - 1);
    } else {
      forall k: nat | k < cap ensures !EndsAt(turns, k) {
        if r.error.PageCap? || k < made - 1 {
          assert GoesOn(turns(k));
        } else {
          assert !GoesOn(turns(made - 1));
        }
      }
    }
  }

  // ---- one recipe --------------------------------------------------------

  /** A null document holds no records, so a page that extracts has a payload. */
  lemma PageHasPayload(recipe: Recipe, split: Splitter, provider: Provider, k: nat)
    ensures Turns(recipe, split, provider)(k) != Raised(PageCap)
    ensures !Turns(recipe, split, provider)(k).Raised? ==> Payloads(provider)(k) != Null
  {
    NothingInNull(recipe.extract);
    NoTurnIsTheCap(recipe, split, provider(k + 1), k + 1);
  }

  lemma NothingInNull(extract: Extract)
    ensures ExtractRows(extract, Null).Err?
  {
    NullHasNoParts(SplitOn(extract.path, '.'));
  }

  lemma NoTurnIsTheCap(recipe: Recipe, split: Splitter, answer: Answer, page: nat)
    ensures TurnOf(recipe, split, answer, page) != Raised(PageCap)
    ensures !TurnOf(recipe, split, answer, page).Raised? ==>
      answer.Answered? && ExtractRows(recipe.extract, answer.payload).Ok?
  {
  }

  /** Undeclared inputs are refused before anything is asked for. */
  predicate Declared(recipe: Recipe, params: map<string, Json>) {
    recipe.declared.Some? && params.Keys <= recipe.declared.value
  }

  function Pinned(u: Url): Target { Target(u.scheme, u.netloc, u.path, u.query) }

  /** The pinned URL, with every input supplied and, under other names, every static parameter. */
  function FirstRequest(recipe: Recipe, params: map<string, Json>): (first: Request)
    ensures first.url.scheme == recipe.pinned.scheme && first.url.netloc == recipe.pinned.netloc
    ensures first.url.path == recipe.pinned.path && first.url.query == recipe.pinned.query
    ensures first.params.Keys == recipe.staticParams.Keys + params.Keys
    ensures forall k | k in params :: first.params[k] == params[k]
    ensures forall k | k in recipe.staticParams && k !in params :: first.params[k] == recipe.staticParams[k]
  {
    Request(Pinned(recipe.pinned), recipe.staticParams + params)
  }

  /**
   * Whole or refused: a recipe returns normally exactly when some page within
   * the cap ends the sequence and every earlier one goes on, and then with the
   * concatenation of their extracts.
   */
  method RunRecipe(recipe: Recipe, params: map<string, Json>, split: Splitter, provider: Provider)
    returns (r: Result<(seq<Record>, Json), Failure>, requests: seq<Request>)
    ensures |requests| <= recipe.pagination.maxPages
    ensures Asked(requests, FirstRequest(recipe, params), Turns(recipe, split, provider))
    ensures recipe.declared.None? || (exists k :: k in params && k !in recipe.declared.value) ==>
      r == Err(Undeclared) && requests == []
    ensures Declared(recipe, params) ==>
      Stopped(Turns(recipe, split, provider), recipe.pagination.maxPages, |requests|, r)
    ensures Declared(recipe, params) ==>
      (r.Ok? <==> exists k: nat :: k < recipe.pagination.maxPages && EndsAt(Turns(recipe, split, provider), k))
    ensures r.Ok? ==> r.value.1 == Payloads(provider)(0)
  {
    if !Declared(recipe, params) {
      return Err(Undeclared), [];
    }
    var turns, cap := Turns(recipe, split, provider), recipe.pagination.maxPages;
    forall k: nat ensures turns(k) != Raised(PageCap) && (!turns(k).Raised? ==> Payloads(provider)(k) != Null) {
      PageHasPayload(recipe, split, provider, k);
    }
    r, requests := RunPages(FirstRequest(recipe, params), turns, Payloads(provider), cap);
    StopsOnce(turns, cap, |requests|, r);
  }

  // ---- what the turns mean -----------------------------------------------

  /** The provider said there is no further page. */
  predicate SaysDone(p: Pagination, answer: Answer) {
    answer.Answered?
    && match p.kind
       case Single => true
       case ByCursor => !Truthy(Locate(answer.payload, if p.cursorPath.Some? then p.cursorPath.value else ""))
       case ByNumber => false
       case ByLink => answer.link.None? || answer.link.value == []
  }

  /** There is no next page: no parameters, or a link that is empty. */
  predicate NoNext(next: Option<map<string, Json>>) {
    next.None? || (LINK_KEY in next.value && !Truthy(next.value[LINK_KEY]))
  }

  lemma NoNextExactly(p: Pagination, payload: Json, link: Option<string>, page: nat)
    requires Pageable(p)
    ensures NextPageParams(p, payload, link, page).Ok?
    ensures NoNext(NextPageParams(p, payload, link, page).value) <==> SaysDone(p, Answered(payload, link))
  {
  }

  lemma TurnByNext(recipe: Recipe, split: Splitter, answer: Answer, page: nat)
    requires answer.Answered? && ExtractRows(recipe.extract, answer.payload).Ok?
    requires NextPageParams(recipe.pagination, answer.payload, answer.link, page).Ok?
    ensures TurnOf(recipe, split, answer, page).Ended?
       <==> NoNext(NextPageParams(recipe.pagination, answer.payload, answer.link, page).value)
    ensures TurnOf(recipe, split, answer, page) != Raised(Invariant)
  {
  }

  /** A page ends the sequence exactly when it extracts and the provider said so. */
  lemma EndsWhenToldExactly(recipe: Recipe, split: Splitter, answer: Answer, page: nat)
    requires Pageable(recipe.pagination)
    ensures TurnOf(recipe, split, answer, page).Ended?
       <==> SaysDone(recipe.pagination, answer) && Extracts(recipe.extract, answer.payload)
  {
    if answer.Answered? {
      ExtractsExactly(recipe.extract, answer.payload);
    }
    if answer.Answered? && ExtractRows(recipe.extract, answer.payload).Ok? {
      NoNextExactly(recipe.pagination, answer.payload, answer.link, page);
      TurnByNext(recipe, split, answer, page);
    }
  }

  /**
   * A page leads to another exactly when it extracts and the provider did not
   * say it was the last; a link has to be one that may be followed, and is.
   */
  lemma GoesOnExactly(recipe: Recipe, split: Splitter, answer: Answer, page: nat)
    requires Pageable(recipe.pagination) && UnlinkedKeys(recipe.pagination)
    ensures GoesOn(TurnOf(recipe, split, answer, page)) <==>
      && answer.Answered? && Extracts(recipe.extract, answer.payload) && !SaysDone(recipe.pagination, answer)
      && (recipe.pagination.kind.ByLink? ==> Adopted(recipe, split, answer.link.value).Ok?)
    ensures recipe.pagination.kind.ByLink? && GoesOn(TurnOf(recipe, split, answer, page)) ==>
      && TurnOf(recipe, split, answer, page).Linked? && answer.Answered? && answer.link.Some?
      && Adopted(recipe, split, answer.link.value) == Ok(TurnOf(recipe, split, answer, page).url)
  {
    if answer.Answered? {
      ExtractsExactly(recipe.extract, answer.payload);
    }
  }

  /** No parameter of the provider's is the engine's own link key. */
  predicate UnlinkedKeys(p: Pagination) {
    && p.cursorParam != Some(LINK_KEY) && p.pageParam != Some(LINK_KEY) && p.sizeParam != Some(LINK_KEY)
  }

  function Adopted(recipe: Recipe, split: Splitter, link: string): Result<Target, Failure> {
    ConfineNextUrl(split(link), recipe.pinned, recipe.pagination.allowedNextPaths)
  }

  /** Numbered pages never end: such a recipe always raises, at the cap if not before. */
  lemma NumberedPagesNeverEnd(recipe: Recipe, split: Splitter, provider: Provider, k: nat)
    requires recipe.pagination.kind.ByNumber? && Pageable(recipe.pagination)
    ensures !EndsAt(Turns(recipe, split, provider), k)
  {
    EndsWhenToldExactly(recipe, split, provider(k + 1), k + 1);
  }

  /** Every URL asked for keeps the pinned scheme and authority, and the pinned or a declared path. */
  lemma {:induction false} EveryRequestConfined(
      recipe: Recipe, params: map<string, Json>, split: Splitter, provider: Provider, k: nat)
    ensures Confined(recipe.pinned, recipe.pagination.allowedNextPaths,
                     RequestAt(FirstRequest(recipe, params), Turns(recipe, split, provider), k).url)
  {
    if k > 0 {
      EveryRequestConfined(recipe, params, split, provider, k - 1);
      LinkedIsConfined(recipe, split, provider(k), k);
    }
  }

  lemma LinkedIsConfined(recipe: Recipe, split: Splitter, answer: Answer, page: nat)
    ensures var t := TurnOf(recipe, split, answer, page);
            t.Linked? ==> Confined(recipe.pinned, recipe.pagination.allowedNextPaths, t.url)
  {
  }

  /**
   * Only link pagination is meant to adopt a provider's URL; a cursor recipe
   * whose pages go on does so exactly when its cursor parameter is the
   * engine's own link key.
   */
  lemma CursorAdoptsUrlExactly(recipe: Recipe, split: Splitter, answer: Answer, page: nat)
    requires recipe.pagination.kind.ByCursor? && Pageable(recipe.pagination)
    requires GoesOn(TurnOf(recipe, split, answer, page))
    ensures TurnOf(recipe, split, answer, page).Linked? <==> recipe.pagination.cursorParam.value == "__link__"
  {
  }

  /** The next cursor goes out with the next request. */
  lemma CursorIsSent(recipe: Recipe, params: map<string, Json>, split: Splitter, provider: Provider, k: nat)
    requires recipe.pagination.kind.ByCursor? && Pageable(recipe.pagination)
    requires recipe.pagination.cursorParam.value != LINK_KEY
    requires GoesOnTo(Turns(recipe, split, provider), k + 1)
    ensures var next := RequestAt(FirstRequest(recipe, params), Turns(recipe, split, provider), k + 1);
            && recipe.pagination.cursorParam.value in next.params
            && next.params[recipe.pagination.cursorParam.value]
               == Locate(Payloads(provider)(k), recipe.pagination.cursorPath.value)
  {
    assert GoesOn(Turns(recipe, split, provider)(k));
    CursorOfTurn(recipe, split, provider(k + 1), k + 1);
  }

  lemma CursorOfTurn(recipe: Recipe, split: Splitter, answer: Answer, page: nat)
    requires recipe.pagination.kind.ByCursor? && Pageable(recipe.pagination)
    requires recipe.pagination.cursorParam.value != LINK_KEY && GoesOn(TurnOf(recipe, split, answer, page))
    ensures answer.Answered? && TurnOf(recipe, split, answer, page).Continued?
    ensures TurnOf(recipe, split, answer, page).params
         == map[recipe.pagination.cursorParam.value := Locate(answer.payload, recipe.pagination.cursorPath.value)]
  {
  }

  /** A numbered recipe asks for page two second, three third, with the declared page size. */
  lemma NumberIsSent(recipe: Recipe, params: map<string, Json>, split: Splitter, provider: Provider, k: nat)
    requires recipe.pagination.kind.ByNumber? && Pageable(recipe.pagination)
    requires recipe.pagination.pageParam.value != LINK_KEY && recipe.pagination.sizeParam != Some(LINK_KEY)
    requires recipe.pagination.sizeParam != recipe.pagination.pageParam
    requires GoesOnTo(Turns(recipe, split, provider), k + 1)
    ensures var next := RequestAt(FirstRequest(recipe, params), Turns(recipe, split, provider), k + 1);
            && recipe.pagination.pageParam.value in next.params
            && next.params[recipe.pagination.pageParam.value] == Num(k + 2)
            && (recipe.pagination.sizeParam.Some? && recipe.pagination.sizeParam.value != []
                && Truthy(recipe.pagination.pageSize) ==>
                  && recipe.pagination.sizeParam.value in next.params
                  && next.params[recipe.pagination.sizeParam.value] == recipe.pagination.pageSize)
  {
    assert GoesOn(Turns(recipe, split, provider)(k));
    NumberOfTurn(recipe, split, provider(k + 1), k + 1);
  }

  lemma NumberOfTurn(recipe: Recipe, split: Splitter, answer: Answer, page: nat)
    requires recipe.pagination.kind.ByNumber? && Pageable(recipe.pagination)
    requires recipe.pagination.pageParam.value != LINK_KEY && recipe.pagination.sizeParam != Some(LINK_KEY)
    requires recipe.pagination.sizeParam != recipe.pagination.pageParam
    requires GoesOn(TurnOf(recipe, split, answer, page))
    ensures var t := TurnOf(recipe, split, answer, page);
            && t.Continued? && recipe.pagination.pageParam.value in t.params
            && t.params[recipe.pagination.pageParam.value] == Num(page + 1)
            && (recipe.pagination.sizeParam.Some? && recipe.pagination.sizeParam.value != []
                && Truthy(recipe.pagination.pageSize) ==>
                  && recipe.pagination.sizeParam.value in t.params
                  && t.params[recipe.pagination.sizeParam.value] == recipe.pagination.pageSize)
  {
  }

  // ---- the whole book ----------------------------------------------------

  /** Where a binding's value is looked up in its producer's payload. */
  function RestOf(expression: string): string { AfterFirst(expression, '.') }

  /** The value a binding reads; null when it resolves to nothing. */
  function Resolve(payloads: map<string, Json>, expression: string): Json {
    var producer := Producer(expression);
    var payload := if producer in payloads then payloads[producer] else Null;
    if RestOf(expression) == [] then payload else Locate(payload, RestOf(expression))
  }

  /** base with what is in over, outside skip, over it. */
  function Overlaid(base: map<string, Json>, over: map<string, Json>, skip: set<string>): map<string, Json> {
    map t | t in base.Keys + (over.Keys - skip) :: if t in over && t !in skip then over[t] else base[t]
  }

  function Resolved(payloads: map<string, Json>, bind: map<string, string>): map<string, Json> {
    map t | t in bind :: Resolve(payloads, bind[t])
  }

  /** A step's literal parameters, with its bindings over them. */
  function Inputs(payloads: map<string, Json>, step: ThreadStep): map<string, Json> {
    Overlaid(step.params, Resolved(payloads, step.bind), {})
  }

  lemma OverlaidNone(base: map<string, Json>, over: map<string, Json>)
    ensures Overlaid(base, over, over.Keys) == base
  {
  }

  lemma OverlaidOne(base: map<string, Json>, over: map<string, Json>, todo: set<string>, t: string)
    requires t in todo && t in over
    ensures Overlaid(base, over, todo - {t}) == Overlaid(base, over, todo)[t := over[t]]
  {
  }

  predicate AllFound(values: map<string, Json>) { forall t | t in values :: values[t] != Null }

  /** The binding loop. */
  method BindInputs(payloads: map<string, Json>, step: ThreadStep) returns (r: Result<map<string, Json>, Failure>)
    ensures r.Ok? <==> AllFound(Resolved(payloads, step.bind))
    ensures r.Ok? ==> r.value == Inputs(payloads, step)
    ensures r.Err? ==> exists t | t in step.bind :: Resolved(payloads, step.bind)[t] == Null
                         && r.error == Unresolved(Producer(step.bind[t]) in payloads)
  {
    ghost var over := Resolved(payloads, step.bind);
    var params, todo := step.params, step.bind.Keys;
    OverlaidNone(step.params, over);
    while todo != {}
      invariant todo <= over.Keys && params == Overlaid(step.params, over, todo)
      invariant forall t | t in over && t !in todo :: over[t] != Null
      decreases |todo|
    {
      var target :| target in todo;
      var value := Resolve(payloads, step.bind[target]);
      if value == Null {
        return Err(Unresolved(Producer(step.bind[target]) in payloads));
      }
      OverlaidOne(step.params, over, todo, target);
      params := params[target := value];
      todo := todo - {target};
    }
    return Ok(params);
  }

  /** Failures that validation at load is there to rule out. */
  predicate LoaderShouldHavePrevented(f: Failure) {
    f == Undeclared || f == Invariant || f == NoSuchRecipe || f == Unresolved(false)
  }

  /** One step of a well-formed book, over payloads of exactly the earlier steps. */
  lemma StepCannotGoWrong(book: Book, i: nat, payloads: map<string, Json>, step: ThreadStep)
    requires WellFormed(book) && i < |book.threading| && step == book.threading[i]
    requires payloads.Keys == Names(book.threading[..i])
    ensures step.recipe in book.recipes && book.recipes[step.recipe].name == step.recipe
    ensures CanRun(book.recipes[step.recipe], Inputs(payloads, step))
    ensures forall t | t in step.bind :: Producer(step.bind[t]) in payloads
  {
    assert StepInOrder(book.recipes, Names(book.threading[..i]), step);
  }

  /** A pageable recipe's failures are never the loader's. */
  lemma PageableNeverInvariant(recipe: Recipe, split: Splitter, provider: Provider, made: nat,
                               r: Result<(seq<Record>, Json), Failure>)
    requires Pageable(recipe.pagination)
    requires Stopped(Turns(recipe, split, provider), recipe.pagination.maxPages, made, r)
    ensures r.Err? ==> !LoaderShouldHavePrevented(r.error)
  {
    StoppedByTurn(Turns(recipe, split, provider), recipe.pagination.maxPages, made, r);
    if r.Err? && !r.error.PageCap? {
      TurnFailures(recipe, split, provider(made), made);
    }
  }

  lemma StoppedByTurn(turns: nat -> Turn, cap: nat, made: nat, r: Result<(seq<Record>, Json), Failure>)
    requires Stopped(turns, cap, made, r)
    ensures r.Err? && !r.error.PageCap? ==> made > 0 && turns(made - 1) == Raised(r.error)
    ensures r.Ok? ==> made > 0 && EndsAt(turns, made - 1) && r.value.0 == RowsTo(turns, made)
  {
  }

  lemma TurnFailures(recipe: Recipe, split: Splitter, answer: Answer, page: nat)
    requires Pageable(recipe.pagination)
    ensures var t := TurnOf(recipe, split, answer, page);
            t.Raised? ==> t.failure in {RequestRefused, NoRecords, NotConfined}
  {
    TransposeFailure(recipe.extract, answer);
  }

  lemma TransposeFailure(extract: Extract, answer: Answer)
    ensures answer.Answered? && ExtractRows(extract, answer.payload).Err? ==>
      ExtractRows(extract, answer.payload).error == NoRecords
  {
  }

  /** The i-th step's recipe ran to its provider's end, and these are all its records. */
  ghost predicate RanWhole(book: Book, split: Splitter, world: nat -> Provider, i: nat, records: seq<Record>) {
    && i < |book.threading| && book.threading[i].recipe in book.recipes
    && var turns := Turns(book.recipes[book.threading[i].recipe], split, world(i));
       exists k: nat :: EndsAt(turns, k) && records == RowsTo(turns, k + 1)
  }

  /** The first page each step's recipe is answered with. */
  function FirstPages(world: nat -> Provider): nat -> Json { (j: nat) => Payloads(world(j))(0) }

  /** Step j is the last of that name before step i. */
  ghost predicate LastBefore(steps: seq<ThreadStep>, j: nat, i: nat, name: string) {
    && j < i <= |steps| && steps[j].recipe == name
    && forall l | j < l < i :: steps[l].recipe != name
  }

  /** An expression is a name, alone or with a path after a dot. */
  predicate Reads(expression: string, name: string, rest: string) {
    '.' !in name && (expression == name + "." + rest || (rest == [] && expression == name))
  }

  /** Its value: the first page of the last earlier step of that name, or what the path names in it. */
  ghost predicate NamedBy(steps: seq<ThreadStep>, pages: nat -> Json, i: nat, expression: string, value: Json) {
    exists j: nat, name, rest ::
      && LastBefore(steps, j, i, name) && Reads(expression, name, rest)
      && value == if rest == [] then pages(j) else Locate(pages(j), rest)
  }

  /** A step's inputs: what each binding names, and the literal parameters that no binding names. */
  ghost predicate FedFrom(steps: seq<ThreadStep>, pages: nat -> Json, i: nat, params: map<string, Json>)
    requires i < |steps|
  {
    var step := steps[i];
    && params.Keys == step.params.Keys + step.bind.Keys
    && (forall t | t in step.params && t !in step.bind :: params[t] == step.params[t])
    && (forall t | t in step.bind :: params[t] != Null && NamedBy(steps, pages, i, step.bind[t], params[t]))
  }

  /** The requests a step makes: those of its recipe from its inputs. */
  ghost predicate AskedBy(book: Book, split: Splitter, world: nat -> Provider, i: nat, requests: seq<Request>)
    requires i < |book.threading|
  {
    var name := book.threading[i].recipe;
    && name in book.recipes
    && exists params ::
         && FedFrom(book.threading, FirstPages(world), i, params)
         && Asked(requests, FirstRequest(book.recipes[name], params), Turns(book.recipes[name], split, world(i)))
  }

  /** The payloads at hand before step i: for each earlier name, its last step's first page. */
  ghost predicate Remembers(steps: seq<ThreadStep>, pages: nat -> Json, i: nat, payloads: map<string, Json>) {
    && i <= |steps| && payloads.Keys == Names(steps[..i])
    && forall name | name in payloads :: exists j: nat :: LastBefore(steps, j, i, name) && payloads[name] == pages(j)
  }

  ghost predicate AtStep(book: Book, world: nat -> Provider, i: nat, payloads: map<string, Json>) {
    i < |book.threading| && Remembers(book.threading, FirstPages(world), i, payloads)
  }

  lemma ReadsExactly(expression: string)
    ensures Reads(expression, Producer(expression), RestOf(expression))
  {
    var at := IndexOf(expression, '.');
    if at == |expression| {
      assert expression[..at] == expression;
    } else {
      assert expression == expression[..at] + "." + expression[at + 1..];
    }
  }

  lemma ResolvesTo(steps: seq<ThreadStep>, pages: nat -> Json, i: nat, payloads: map<string, Json>, expression: string)
    requires Remembers(steps, pages, i, payloads) && Producer(expression) in payloads
    ensures NamedBy(steps, pages, i, expression, Resolve(payloads, expression))
  {
    var name := Producer(expression);
    var j: nat :| LastBefore(steps, j, i, name) && payloads[name] == pages(j);
    ReadsExactly(expression);
  }

  lemma InputsAreFed(steps: seq<ThreadStep>, pages: nat -> Json, i: nat, payloads: map<string, Json>)
    requires i < |steps| && Remembers(steps, pages, i, payloads) && AllFound(Resolved(payloads, steps[i].bind))
    requires forall t | t in steps[i].bind :: Producer(steps[i].bind[t]) in payloads
    ensures FedFrom(steps, pages, i, Inputs(payloads, steps[i]))
  {
    var step := steps[i];
    var params := Inputs(payloads, step);
    InputsExactly(payloads, step);
    forall t | t in step.bind ensures params[t] != Null && NamedBy(steps, pages, i, step.bind[t], params[t]) {
      ResolvesTo(steps, pages, i, payloads, step.bind[t]);
    }
  }

  lemma InputsExactly(payloads: map<string, Json>, step: ThreadStep)
    ensures Inputs(payloads, step).Keys == step.params.Keys + step.bind.Keys
    ensures forall t | t in step.params && t !in step.bind :: Inputs(payloads, step)[t] == step.params[t]
    ensures forall t | t in step.bind ::
      Inputs(payloads, step)[t] == Resolve(payloads, step.bind[t]) == Resolved(payloads, step.bind)[t]
  {
  }

  lemma AsksFromInputs(book: Book, split: Splitter, world: nat -> Provider, i: nat, payloads: map<string, Json>,
                       requests: seq<Request>)
    requires WellFormed(book) && AtStep(book, world, i, payloads)
    requires AllFound(Resolved(payloads, book.threading[i].bind)) && book.threading[i].recipe in book.recipes
    requires var recipe := book.recipes[book.threading[i].recipe];
             Asked(requests, FirstRequest(recipe, Inputs(payloads, book.threading[i])), Turns(recipe, split, world(i)))
    ensures AskedBy(book, split, world, i, requests)
  {
    StepCannotGoWrong(book, i, payloads, book.threading[i]);
    InputsAreFed(book.threading, FirstPages(world), i, payloads);
  }

  /** One more payload, under its step's name. */
  lemma PayloadsGrow(steps: seq<ThreadStep>, pages: nat -> Json, i: nat, payloads: map<string, Json>)
    requires i < |steps| && Remembers(steps, pages, i, payloads)
    ensures Remembers(steps, pages, i + 1, payloads[steps[i].recipe := pages(i)])
  {
    var more := payloads[steps[i].recipe := pages(i)];
    NamesGrow(steps, i);
    forall name | name in more ensures exists j: nat :: LastBefore(steps, j, i + 1, name) && more[name] == pages(j) {
      if name == steps[i].recipe {
        assert LastBefore(steps, i, i + 1, name);
      } else {
        var j: nat :| LastBefore(steps, j, i, name) && payloads[name] == pages(j);
        assert LastBefore(steps, j, i + 1, name);
      }
    }
  }

  /** Each step that was asked for anything was asked for what it is fed. */
  ghost predicate AllAsked(book: Book, split: Splitter, world: nat -> Provider, asked: seq<seq<Request>>) {
    |asked| <= |book.threading| && forall i | 0 <= i < |asked| :: AskedBy(book, split, world, i, asked[i])
  }

  /**
   * What running a book comes to: the requests of its steps in turn, and the
   * last step's records or a failure.
   */
  ghost predicate Delivers(book: Book, split: Splitter, world: nat -> Provider, r: Result<seq<Record>, Failure>,
                           asked: seq<seq<Request>>)
  {
    && (WellFormed(book) ==> AllAsked(book, split, world, asked))
    && (WellFormed(book) && r.Err? ==> !LoaderShouldHavePrevented(r.error))
    && (r.Ok? ==> |asked| == |book.threading|)
    && (r.Ok? && book.threading != [] ==> RanWhole(book, split, world, |book.threading| - 1, r.value))
  }

  /** Where the loop over the steps stands. */
  ghost predicate SoFar(book: Book, split: Splitter, world: nat -> Provider, formed: bool, i: nat,
                        payloads: map<string, Json>, asked: seq<seq<Request>>, records: seq<Record>)
  {
    && i <= |book.threading| && |asked| == i
    && (formed ==> AllAsked(book, split, world, asked))
    && (formed && i < |book.threading| ==> AtStep(book, world, i, payloads))
    && (i > 0 ==> RanWhole(book, split, world, i - 1, records))
  }

  /**
   * Every recipe of the book run in threading order, each fed from the first
   * pages of the ones it names; the last one's records are the result. No
   * well-formed book fails in a way the loader is there to prevent.
   */
  method RunBook(book: Book, split: Splitter, world: nat -> Provider)
    returns (r: Result<seq<Record>, Failure>, asked: seq<seq<Request>>)
    ensures Delivers(book, split, world, r, asked)
  {
    ghost var formed := WellFormed(book);
    var payloads: map<string, Json>, records: seq<Record> := map[], [];
    asked := [];
    for i := 0 to |book.threading|
      invariant SoFar(book, split, world, formed, i, payloads, asked, records)
    {
      var ran, requests;
      ran, requests, payloads := RunStep(book, i, payloads, split, world, formed);
      if requests.Some? {
        OneMoreAsked(book, split, world, i, asked, requests.value);
        asked := asked + [requests.value];
      }
      if ran.Err? {
        return Err(ran.error), asked;
      }
      records := ran.value;
    }
    return Ok(records), asked;
  }

  lemma OneMoreAsked(book: Book, split: Splitter, world: nat -> Provider, i: nat, asked: seq<seq<Request>>,
                     requests: seq<Request>)
    requires i < |book.threading| && |asked| == i
    ensures AllAsked(book, split, world, asked) && AskedBy(book, split, world, i, requests) ==>
      AllAsked(book, split, world, asked + [requests])
  {
  }

  lemma NamesGrow(steps: seq<ThreadStep>, i: nat)
    requires i < |steps|
    ensures Names(steps[..i + 1]) == Names(steps[..i]) + {steps[i].recipe}
  {
    forall n | n in Names(steps[..i]) ensures n in Names(steps[..i + 1]) {
      var j :| 0 <= j < i && steps[..i][j].recipe == n;
      assert steps[..i + 1][j].recipe == n;
    }
    assert steps[..i + 1][i] == steps[i];
    assert forall j | 0 <= j < i :: steps[..i + 1][j] == steps[..i][j];
  }

  /** What a step comes to, over whatever payloads are at hand. */
  ghost predicate StepDid(book: Book, i: nat, payloads: map<string, Json>, split: Splitter, world: nat -> Provider,
                          r: Result<(seq<Record>, Json), Failure>, requests: Option<seq<Request>>)
    requires i < |book.threading|
  {
    var step := book.threading[i];
    if step.recipe !in book.recipes then r == Err(NoSuchRecipe) && requests.None?
    else if !AllFound(Resolved(payloads, step.bind)) then
      requests.None? && exists t | t in step.bind :: r == Err(Unresolved(Producer(step.bind[t]) in payloads))
    else
      var recipe, inputs := book.recipes[step.recipe], Inputs(payloads, step);
      && requests.Some? && Asked(requests.value, FirstRequest(recipe, inputs), Turns(recipe, split, world(i)))
      && (r.Err? && CanRun(recipe, inputs) ==> !LoaderShouldHavePrevented(r.error))
  }

  /** Bind, then run. */
  method BindAndRun(book: Book, i: nat, payloads: map<string, Json>, split: Splitter, world: nat -> Provider)
    returns (r: Result<(seq<Record>, Json), Failure>, requests: Option<seq<Request>>)
    requires i < |book.threading|
    ensures r.Ok? ==> RanWhole(book, split, world, i, r.value.0) && r.value.1 == FirstPages(world)(i)
    ensures StepDid(book, i, payloads, split, world, r, requests)
  {
    var step := book.threading[i];
    if step.recipe !in book.recipes {
      return Err(NoSuchRecipe), None;
    }
    var params := BindInputs(payloads, step);
    if params.Err? {
      return Err(params.error), None;
    }
    var made;
    r, made := RunDeclared(book.recipes[step.recipe], params.value, split, world(i));
    requests := Some(made);
  }

  /** Over the payloads of a well-formed book, that is never wrong. */
  lemma StepDidWell(book: Book, i: nat, payloads: map<string, Json>, split: Splitter, world: nat -> Provider,
                    r: Result<(seq<Record>, Json), Failure>, requests: Option<seq<Request>>)
    requires WellFormed(book) && AtStep(book, world, i, payloads) && StepDid(book, i, payloads, split, world, r, requests)
    ensures r.Err? ==> !LoaderShouldHavePrevented(r.error)
    ensures requests.Some? ==> AskedBy(book, split, world, i, requests.value)
    ensures book.recipes[book.threading[i].recipe].name == book.threading[i].recipe
    ensures i + 1 < |book.threading| ==>
      AtStep(book, world, i + 1, payloads[book.threading[i].recipe := FirstPages(world)(i)])
  {
    StepCannotGoWrong(book, i, payloads, book.threading[i]);
    if requests.Some? {
      AsksFromInputs(book, split, world, i, payloads, requests.value);
    }
    PayloadsGrow(book.threading, FirstPages(world), i, payloads);
  }

  /** One step, which leaves its recipe's first page under its name. */
  method RunStep(book: Book, i: nat, payloads: map<string, Json>, split: Splitter, world: nat -> Provider,
                 ghost formed: bool)
    returns (r: Result<seq<Record>, Failure>, requests: Option<seq<Request>>, more: map<string, Json>)
    requires i < |book.threading| && (formed ==> WellFormed(book) && AtStep(book, world, i, payloads))
    ensures r.Ok? ==> RanWhole(book, split, world, i, r.value) && requests.Some?
    ensures formed && r.Err? ==> !LoaderShouldHavePrevented(r.error)
    ensures formed && requests.Some? ==> AskedBy(book, split, world, i, requests.value)
    ensures formed && r.Ok? && i + 1 < |book.threading| ==> AtStep(book, world, i + 1, more)
  {
    var ran;
    ran, requests := BindAndRun(book, i, payloads, split, world);
    if formed {
      StepDidWell(book, i, payloads, split, world, ran, requests);
    }
    if ran.Err? {
      return Err(ran.error), requests, payloads;
    }
    more := payloads[book.recipes[book.threading[i].recipe].name := ran.value.1];
    return Ok(ran.value.0), requests, more;
  }

  method RunDeclared(recipe: Recipe, params: map<string, Json>, split: Splitter, provider: Provider)
    returns (r: Result<(seq<Record>, Json), Failure>, requests: seq<Request>)
    ensures r.Ok? ==> exists k: nat ::
      EndsAt(Turns(recipe, split, provider), k) && r.value.0 == RowsTo(Turns(recipe, split, provider), k + 1)
    ensures r.Ok? ==> r.value.1 == Payloads(provider)(0)
    ensures r.Err? && CanRun(recipe, params) ==> !LoaderShouldHavePrevented(r.error)
    ensures Asked(requests, FirstRequest(recipe, params), Turns(recipe, split, provider))
  {
    r, requests := RunRecipe(recipe, params, split, provider);
    if Declared(recipe, params) {
      StoppedByTurn(Turns(recipe, split, provider), recipe.pagination.maxPages, |requests|, r);
      if Pageable(recipe.pagination) {
        PageableNeverInvariant(recipe, split, provider, |requests|, r);
      }
    }
  }

  predicate CanRun(recipe: Recipe, params: map<string, Json>) {
    Pageable(recipe.pagination) && Declared(recipe, params)
  }

  /**
   * Accepted books cannot go wrong: a pull of any document the loader accepts
   * never reads a producer that has not run, never supplies an undeclared
   * input and never reaches the engine's invariant errors.
   */
  method Pull(doc: Json, split: Splitter, world: nat -> Provider)
    returns (r: Option<Result<seq<Record>, Failure>>, asked: seq<seq<Request>>)
    ensures match Accepted(doc, split)
            case Err(_) => r.None?
            case Ok(book) => WellFormed(book) && r.Some? && Delivers(book, split, world, r.value, asked)
  {
    var book := ParseBook(doc, split);
    if book.Err? {
      return None, [];
    }
    var records;
    records, asked := RunBook(book.value, split, world);
    return Some(records), asked;
  }

  // ---- output columns ----------------------------------------------------

  /** One output column: row.get(source) over the records. */
  function ColumnOf(records: seq<Record>, source: string): (values: seq<Json>)
    ensures |values| == |records|
    ensures forall i | 0 <= i < |records| :: values[i] == Get(records[i], source)
  {
    seq(|records|, i requires 0 <= i < |records| => Get(records[i], source))
  }

  /** The last declared column of that name. */
  function LastNamed(output: seq<OutputColumn>, name: string): (l: nat)
    requires exists c :: 0 <= c < |output| && output[c].name == name
    ensures l < |output| && output[l].name == name
    ensures forall d | l < d < |output| :: output[d].name != name
  {
    if output[|output| - 1].name == name then |output| - 1 else LastNamed(output[..|output| - 1], name)
  }

  /** A declared column's values, converted to its type; None when one does not convert. */
  function Converted<C>(records: seq<Record>, column: OutputColumn, convert: (string, seq<Json>) -> Option<seq<C>>)
    : Option<seq<C>>
  {
    convert(column.kind, ColumnOf(records, column.source))
  }

  /**
   * The declared columns, in declared order, each filled from the last
   * declaration of its name; it raises exactly when some column does not convert.
   */
  method RecordsToFrame<C>(
      records: seq<Record>, output: seq<OutputColumn>, convert: (string, seq<Json>) -> Option<seq<C>>)
    returns (r: Option<seq<(string, seq<C>)>>)
    ensures r.None? <==> exists c | 0 <= c < |output| :: Converted(records, output[c], convert).None?
    ensures r.Some? ==> |r.value| == |output| && forall c | 0 <= c < |output| ::
      var last := output[LastNamed(output, output[c].name)];
      Converted(records, last, convert).Some?
      && r.value[c] == (output[c].name, Converted(records, last, convert).value)
  {
    var data: map<string, seq<C>> := map[];
    for c := 0 to |output|
      invariant forall d | 0 <= d < c :: Converted(records, output[d], convert).Some?
      invariant forall d | 0 <= d < c :: output[d].name in data
      invariant forall d | 0 <= d < c && (forall e | d < e < c :: output[e].name != output[d].name) ::
        data[output[d].name] == Converted(records, output[d], convert).value
    {
      var column := Converted(records, output[c], convert);
      if column.None? {
        return None;
      }
      data := data[output[c].name := column.value];
    }
    var frame := [];
    for c := 0 to |output|
      invariant |frame| == c
      invariant forall d | 0 <= d < c :: frame[d] == (output[d].name, data[output[d].name])
    {
      frame := frame + [(output[c].name, data[output[c].name])];
    }
    return Some(frame);
  }

  /** So every declared column is filled from its own declaration exactly when no name is declared twice. */
  lemma OwnColumnsExactly(output: seq<OutputColumn>)
    ensures (forall c | 0 <= c < |output| :: LastNamed(output, output[c].name) == c)
       <==> (forall c, d | 0 <= c < d < |output| :: output[c].name != output[d].name)
  {
    if forall c | 0 <= c < |output| :: LastNamed(output, output[c].name) == c {
      forall c, d | 0 <= c < d < |output| ensures output[c].name != output[d].name {
        assert LastNamed(output, output[c].name) == c && LastNamed(output, output[d].name) == d;
      }
    } else {
      var c :| 0 <= c < |output| && LastNamed(output, output[c].name) != c;
      var l := LastNamed(output, output[c].name);
      assert c < l && output[c].name == output[l].name;
    }
  }

  /** What a columnar page holds of a source: its array, or nulls when it has none. */
  function PageColumn(extract: Extract, payload: Json, source: string): seq<Json> {
    match Locate(payload, extract.path)
    case Obj(fields) =>
      var arrays := ArrayFields(fields);
      if source in arrays then arrays[source]
      else
        (match Transpose(arrays)
         case Ok(rows) => seq(|rows|, _ => Null)
         case Err(_) => [])
    case _ => []
  }

  function PageColumns(extract: Extract, provider: Provider, source: string): nat -> seq<Json> {
    (k: nat) => PageColumn(extract, Payloads(provider)(k), source)
  }

  /** The parts of the first k pages, one after another. */
  function Gathered(parts: nat -> seq<Json>, k: nat): seq<Json> {
    if k == 0 then [] else Gathered(parts, k - 1) + parts(k - 1)
  }

  /** A page that does not raise has extracted all it holds. */
  lemma TurnExtracts(recipe: Recipe, split: Splitter, answer: Answer, page: nat)
    requires !TurnOf(recipe, split, answer, page).Raised?
    ensures answer.Answered? && ExtractRows(recipe.extract, answer.payload).Ok?
    ensures RowsOf(TurnOf(recipe, split, answer, page)) == ExtractRows(recipe.extract, answer.payload).value
  {
  }

  lemma PageRoundTrip(extract: Extract, payload: Json, source: string)
    requires extract.shape.Columnar? && ExtractRows(extract, payload).Ok?
    ensures ColumnOf(ExtractRows(extract, payload).value, source) == PageColumn(extract, payload, source)
  {
  }

  lemma OnePage(recipe: Recipe, split: Splitter, provider: Provider, source: string, k: nat)
    requires recipe.extract.shape.Columnar? && !Turns(recipe, split, provider)(k).Raised?
    ensures ColumnOf(RowsOf(Turns(recipe, split, provider)(k)), source)
         == PageColumns(recipe.extract, provider, source)(k)
  {
    var answer := provider(k + 1);
    TurnExtracts(recipe, split, answer, k + 1);
    assert Turns(recipe, split, provider)(k) == TurnOf(recipe, split, answer, k + 1);
    PageRoundTrip(recipe.extract, answer.payload, source);
    assert Payloads(provider)(k) == answer.payload;
  }

  lemma ColumnOfTwo(a: seq<Record>, b: seq<Record>, source: string)
    ensures ColumnOf(a + b, source) == ColumnOf(a, source) + ColumnOf(b, source)
  {
  }

  lemma {:induction false} RowsGather(turns: nat -> Turn, parts: nat -> seq<Json>, source: string, k: nat)
    requires forall i: nat | i < k :: ColumnOf(RowsOf(turns(i)), source) == parts(i)
    ensures ColumnOf(RowsTo(turns, k), source) == Gathered(parts, k)
  {
    if k > 0 {
      RowsGather(turns, parts, source, k - 1);
      ColumnOfTwo(RowsTo(turns, k - 1), RowsOf(turns(k - 1)), source);
    }
  }

  lemma PagesDidNotRaise(turns: nat -> Turn, cap: nat, made: nat, r: Result<(seq<Record>, Json), Failure>)
    requires Stopped(turns, cap, made, r) && r.Ok?
    ensures forall i: nat | i < made :: !turns(i).Raised?
  {
    forall i: nat | i < made ensures !turns(i).Raised? {
      assert i < made - 1 ==> GoesOn(turns(i));
    }
  }

  /**
   * When a columnar recipe returns, an output column over its records is the
   * concatenation of what the pages asked for hold of the column's source.
   */
  lemma ColumnarRoundTrip(recipe: Recipe, split: Splitter, provider: Provider, made: nat,
                          r: Result<(seq<Record>, Json), Failure>, source: string)
    requires recipe.extract.shape.Columnar?
    requires Stopped(Turns(recipe, split, provider), recipe.pagination.maxPages, made, r) && r.Ok?
    ensures ColumnOf(r.value.0, source) == Gathered(PageColumns(recipe.extract, provider, source), made)
  {
    var turns, parts := Turns(recipe, split, provider), PageColumns(recipe.extract, provider, source);
    PagesDidNotRaise(turns, recipe.pagination.maxPages, made, r);
    forall i: nat | i < made ensures ColumnOf(RowsOf(turns(i)), source) == parts(i) {
      OnePage(recipe, split, provider, source, i);
    }
    RowsGather(turns, parts, source, made);
  }

  /** When a records recipe returns, each page's rows are the objects of the list at its path, in order. */
  lemma RecordsAsGiven(recipe: Recipe, split: Splitter, provider: Provider, made: nat,
                       r: Result<(seq<Record>, Json), Failure>)
    requires recipe.extract.shape.Records?
    requires Stopped(Turns(recipe, split, provider), recipe.pagination.maxPages, made, r) && r.Ok?
    ensures forall i: nat | i < made ::
      var node := Locate(Payloads(provider)(i), recipe.extract.path);
      node.Arr? && RowsOf(Turns(recipe, split, provider)(i)) == Objects(node.items)
  {
    PagesDidNotRaise(Turns(recipe, split, provider), recipe.pagination.maxPages, made, r);
    forall i: nat | i < made
      ensures var node := Locate(Payloads(provider)(i), recipe.extract.path);
              node.Arr? && RowsOf(Turns(recipe, split, provider)(i)) == Objects(node.items)
    {
      assert !Turns(recipe, split, provider)(i).Raised?;
      TurnExtracts(recipe, split, provider(i + 1), i + 1);
    }
  }

  /** It returns only over pages whose arrays all have one length: a page of unequal ones is refused, never cut. */
  lemma NothingTruncated(recipe: Recipe, split: Splitter, provider: Provider, made: nat,
                         r: Result<(seq<Record>, Json), Failure>)
    requires recipe.extract.shape.Columnar?
    requires Stopped(Turns(recipe, split, provider), recipe.pagination.maxPages, made, r) && r.Ok?
    ensures forall i: nat | i < made ::
      var node := Locate(Payloads(provider)(i), recipe.extract.path);
      node.Obj? && Rectangular(ArrayFields(node.fields))
  {
    PagesDidNotRaise(Turns(recipe, split, provider), recipe.pagination.maxPages, made, r);
    forall i: nat | i < made
      ensures var node := Locate(Payloads(provider)(i), recipe.extract.path);
              node.Obj? && Rectangular(ArrayFields(node.fields))
    {
      assert !Turns(recipe, split, provider)(i).Raised?;
      TurnExtracts(recipe, split, provider(i + 1), i + 1);
    }
  }
}
