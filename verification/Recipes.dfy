/**
 * Recipe books: what the loader accepts, and what acceptance promises the
 * engine. A book is a document; every refusal of the loader is Err(()).
 */
module Recipes {
  import opened Util
  import opened Cursor
  import opened Json

  /** A URL as urlsplit sees it; reading the port of some raises. */
  datatype Url = Url(scheme: string, netloc: string, user: string, password: string,
                     host: string, port: Result<Option<nat>, ()>, path: string, query: string)

  /** urlsplit; None is its ValueError. */
  type Splitter = string -> Option<Url>

  datatype PageKind = Single | ByCursor | ByNumber | ByLink

  datatype Pagination = Pagination(
    kind: PageKind,
    cursorPath: Option<string>,
    cursorParam: Option<string>,
    pageParam: Option<string>,
    sizeParam: Option<string>,
    pageSize: Json,
    rel: string,
    maxPages: nat,
    allowedNextPaths: seq<string>)

  datatype Shape = Records | Columnar

  datatype Extract = Extract(path: string, shape: Shape)

  datatype Recipe = Recipe(name: string, method_: string, url: string, pinned: Url, pagination: Pagination,
                           extract: Extract, declared: Option<set<string>>, staticParams: map<string, Json>)

  datatype OutputColumn = OutputColumn(name: string, source: string, kind: string)

  datatype ThreadStep = ThreadStep(recipe: string, bind: map<string, string>, params: map<string, Json>)

  datatype Book = Book(recipes: map<string, Recipe>, threading: seq<ThreadStep>, output: seq<OutputColumn>)

  // ---- reading a document ------------------------------------------------

  /** doc.get(key). */
  function Get(doc: map<string, Json>, key: string): Json { if key in doc then doc[key] else Null }

  /** doc.get(key, otherwise). */
  function GetOr(doc: map<string, Json>, key: string, otherwise: Json): Json {
    if key in doc then doc[key] else otherwise
  }

  /** A text, if the value is one. */
  function AsText(v: Json): Option<string> { if v.Str? then Some(v.s) else None }

  function NonEmptyText(v: Json): bool { v.Str? && v.s != [] }

  /** dict(v or {}): None when v is true but no mapping. */
  function AsMapping(v: Json): Option<map<string, Json>> {
    if !Truthy(v) then Some(map[]) else if v.Obj? then Some(v.fields) else None
  }

  /** int(v). */
  function AsInt(v: Json): Option<int> {
    match v
    case Num(n) => Some(n)
    case Bool(b) => Some(if b then 1 else 0)
    case Str(s) => ParseInt(s)
    case _ => None
  }

  const DEFAULT_MAX_PAGES := 100

  const UNPAGED := Pagination(Single, None, None, None, None, Null, "next", DEFAULT_MAX_PAGES, [])

  const PAGINATION_KEYS := {"type", "cursor_path", "cursor_param", "page_param", "size_param", "page_size", "rel",
                            "max_pages", "allowed_next_paths"}

  function PageKindOf(v: Json): Option<PageKind> {
    if v == Str("none") then Some(Single)
    else if v == Str("cursor") then Some(ByCursor)
    else if v == Str("page") then Some(ByNumber)
    else if v == Str("link-header") then Some(ByLink)
    else None
  }

  predicate AbsolutePaths(paths: Json) {
    paths.Arr? && forall p | p in paths.items :: p.Str? && p.s != [] && p.s[0] == '/'
  }

  function Texts(items: seq<Json>): seq<string> {
    seq(|items|, i requires 0 <= i < |items| => if items[i].Str? then items[i].s else "")
  }

  function ParsePagination(doc: Json): Result<Pagination, ()> {
    if doc.Null? then Ok(UNPAGED)
    else if !doc.Obj? || !(doc.fields.Keys <= PAGINATION_KEYS) then Err(())
    else
      var d := doc.fields;
      var kind := PageKindOf(GetOr(d, "type", Str("none")));
      var paths := Get(d, "allowed_next_paths");
      var maxPages := AsInt(GetOr(d, "max_pages", Num(DEFAULT_MAX_PAGES)));
      if || kind.None? || maxPages.None? || maxPages.value < 1
         || (kind.value.ByCursor? && !(NonEmptyText(Get(d, "cursor_path")) && NonEmptyText(Get(d, "cursor_param"))))
         || (kind.value.ByNumber? && !NonEmptyText(Get(d, "page_param")))
         || (Truthy(paths) && !(kind.value.ByLink? && AbsolutePaths(paths)))
      then Err(())
      else
        Ok(Pagination(
          kind.value, AsText(Get(d, "cursor_path")), AsText(Get(d, "cursor_param")), AsText(Get(d, "page_param")),
          AsText(Get(d, "size_param")), Get(d, "page_size"),
          if GetOr(d, "rel", Str("next")).Str? then GetOr(d, "rel", Str("next")).s else "",
          maxPages.value, if Truthy(paths) then Texts(paths.items) else []))
  }

  function ParseExtract(doc: Json): Result<Extract, ()> {
    match doc
    case Str(path) => Ok(Extract(path, Records))
    case Obj(d) =>
      if !(d.Keys <= {"path", "shape"}) || !Get(d, "path").Str? then Err(())
      else
        (match GetOr(d, "shape", Str("records"))
         case Str(shape) =>
           if shape == "records" then Ok(Extract(d["path"].s, Records))
           else if shape == "columnar" then Ok(Extract(d["path"].s, Columnar))
           else Err(())
         case _ => Err(()))
    case _ => Err(())
  }

  predicate AuthInOrder(doc: Json) {
    || doc.Null?
    || (doc.Obj? && doc.fields.Keys <= {"type", "env_file", "key_name"}
        && var kind := GetOr(doc.fields, "type", Str("none"));
           || kind == Str("none")
           || (kind in {Str("header"), Str("query")}
               && Truthy(Get(doc.fields, "env_file")) && Truthy(Get(doc.fields, "key_name"))))
  }

  const RECIPE_KEYS := {"name", "method", "url", "auth", "params_schema", "response_schema", "pagination", "extract",
                        "static_params"}

  /** The declared inputs; None when the schema's shape makes reading them raise. */
  function DeclaredIn(schema: Json): Option<set<string>> {
    if !Truthy(schema) then Some({})
    else if !schema.Obj? then None
    else NamesIn(GetOr(schema.fields, "properties", Obj(map[])))
  }

  /** What iterating the properties yields, as a set of names. */
  function NamesIn(properties: Json): Option<set<string>> {
    match properties
    case Obj(fields) => Some(fields.Keys)
    case Arr(items) =>
      if exists v | v in items :: v.Arr? || v.Obj? then None else Some(set v | v in items && v.Str? :: v.s)
    case Str(text) => Some(set c | c in text :: [c])
    case _ => None
  }

  /** Limits, when given: a positive byte cap and a positive timeout. */
  predicate LimitsInOrder(doc: Json) {
    AsMapping(doc).Some?
    && var d := AsMapping(doc).value;
       var bytes, seconds := AsInt(GetOr(d, "max_response_bytes", Num(1))), AsInt(GetOr(d, "timeout_s", Num(1)));
       d.Keys <= {"max_response_bytes", "timeout_s"} && bytes.Some? && bytes.value >= 1 && seconds.Some? && seconds.value > 0
  }

  /** An authored URL: https, with a host, and without a placeholder. */
  function Pin(url: string, split: Splitter): Option<Url> {
    match split(url)
    case None => None
    case Some(u) => if u.scheme != "https" || u.host == [] || '{' in url || '}' in url then None else Some(u)
  }

  function Upper(s: string): (u: string)
    ensures |u| == |s|
    ensures forall i | 0 <= i < |s| :: u[i] as int == s[i] as int - if 0x61 <= s[i] as int <= 0x7A then 0x20 else 0
  {
    seq(|s|, i requires 0 <= i < |s| => if 'a' <= s[i] <= 'z' then s[i] - 'a' + 'A' else s[i])
  }

  function ParseRecipe(doc: Json, split: Splitter): Result<Recipe, ()> {
    if !doc.Obj? || !(doc.fields.Keys <= RECIPE_KEYS) then Err(())
    else
      var d := doc.fields;
      var pagination, extract := ParsePagination(Get(d, "pagination")), ParseExtract(Get(d, "extract"));
      if || !Get(d, "name").Str? || !Get(d, "method").Str? || !Get(d, "url").Str?
         || Upper(d["method"].s) !in {"GET", "POST"} || Pin(d["url"].s, split).None?
         || !Get(d, "response_schema").Obj? || !AuthInOrder(Get(d, "auth"))
         || pagination.Err? || extract.Err? || AsMapping(Get(d, "static_params")).None?
      then Err(())
      else
        Ok(Recipe(d["name"].s, Upper(d["method"].s), d["url"].s, Pin(d["url"].s, split).value, pagination.value,
                  extract.value, DeclaredIn(Get(d, "params_schema")), AsMapping(Get(d, "static_params")).value))
  }

  function RecipeParser(split: Splitter): Json -> Result<Recipe, ()> { doc => ParseRecipe(doc, split) }

  function ParseStep(doc: Json): Result<ThreadStep, ()> {
    if !doc.Obj? || !(doc.fields.Keys <= {"recipe", "bind", "params"}) || !Get(doc.fields, "recipe").Str? then Err(())
    else
      var bind, params := AsMapping(Get(doc.fields, "bind")), AsMapping(Get(doc.fields, "params"));
      if bind.None? || params.None? || exists t | t in bind.value :: !bind.value[t].Str? then Err(())
      else
        Ok(ThreadStep(doc.fields["recipe"].s, TextsOf(bind.value), params.value))
  }

  function TextsOf(m: map<string, Json>): map<string, string> { map t | t in m :: if m[t].Str? then m[t].s else "" }

  function ParseColumn(doc: Json): Result<OutputColumn, ()> {
    if !doc.Obj? || !(doc.fields.Keys <= {"name", "from", "type", "tz"}) then Err(())
    else
      var d := doc.fields;
      var kind := Get(d, "type");
      if || kind !in {Str("int64"), Str("double"), Str("string"), Str("bool"), Str("timestamp[us]")}
         || (kind == Str("timestamp[us]") && GetOr(d, "tz", Str("UTC")) != Str("UTC"))
         || !Get(d, "name").Str? || !Get(d, "from").Str?
      then Err(())
      else Ok(OutputColumn(d["name"].s, d["from"].s, kind.s))
  }

  // ---- what a book has to be ---------------------------------------------

  /** The recipe a binding reads from: the loader's split(".", 1)[0], the engine's partition("."). */
  function Producer(expression: string): string { BeforeFirst(expression, '.') }

  function Names(steps: seq<ThreadStep>): set<string> { set i | 0 <= i < |steps| :: steps[i].recipe }

  /** The step names a defined recipe, supplies declared inputs only, and binds from earlier steps only. */
  predicate StepInOrder(recipes: map<string, Recipe>, seen: set<string>, step: ThreadStep) {
    && step.recipe in recipes
    && recipes[step.recipe].declared.Some?
    && step.bind.Keys + step.params.Keys <= recipes[step.recipe].declared.value
    && forall t | t in step.bind :: Producer(step.bind[t]) in seen
  }

  ghost predicate ThreadedInOrder(recipes: map<string, Recipe>, steps: seq<ThreadStep>) {
    forall i | 0 <= i < |steps| :: StepInOrder(recipes, Names(steps[..i]), steps[i])
  }

  /** What the engine needs of a recipe's pagination. */
  predicate Pageable(p: Pagination) {
    && p.maxPages >= 1
    && (p.kind.ByCursor? ==> p.cursorPath.Some? && p.cursorParam.Some? && p.cursorParam.value != [])
    && (p.kind.ByNumber? ==> p.pageParam.Some? && p.pageParam.value != [])
  }

  ghost predicate WellFormed(book: Book) {
    && (forall n | n in book.recipes :: book.recipes[n].name == n && Pageable(book.recipes[n].pagination))
    && book.threading != [] && book.output != []
    && ThreadedInOrder(book.recipes, book.threading)
  }

  ghost predicate DistinctNames(recipes: seq<Recipe>) {
    forall i, j | 0 <= i < j < |recipes| :: recipes[i].name != recipes[j].name
  }

  /** Each document parsed; Err when one is refused. */
  function ParseEach<T>(docs: seq<Json>, parse: Json -> Result<T, ()>): (r: Result<seq<T>, ()>)
    ensures r.Ok? <==> forall i | 0 <= i < |docs| :: parse(docs[i]).Ok?
    ensures r.Ok? ==> |r.value| == |docs| && forall i | 0 <= i < |docs| :: parse(docs[i]) == Ok(r.value[i])
  {
    if docs == [] then Ok([])
    else
      match (parse(docs[0]), ParseEach(docs[1..], parse))
      case (Ok(first), Ok(rest)) => Ok([first] + rest)
      case (_, _) => Err(())
  }

  /** Each recipe under its own name. */
  function ByName(recipes: seq<Recipe>): (m: map<string, Recipe>)
    ensures forall n | n in m :: m[n] in recipes && m[n].name == n
    ensures forall recipe | recipe in recipes :: recipe.name in m
  {
    if recipes == [] then map[]
    else ByName(recipes[..|recipes| - 1])[recipes[|recipes| - 1].name := recipes[|recipes| - 1]]
  }

  // ---- what the loader accepts -------------------------------------------

  /** What the loader reads of a book: the recipes, the threading and the output columns. */
  datatype Sections = Sections(recipes: seq<Json>, threading: Json, columns: seq<Json>)

  function ColumnDocs(output: Json): seq<Json> {
    if output.Obj? && Get(output.fields, "columns").Arr? then output.fields["columns"].items else []
  }

  function SectionsOf(doc: Json): Option<Sections> {
    if !doc.Obj? || !(doc.fields.Keys <= {"dataset", "recipes", "threading", "output", "limits"}) then None
    else if "dataset" !in doc.fields || !Get(doc.fields, "recipes").Arr? then None
    else if !LimitsInOrder(Get(doc.fields, "limits")) then None
    else Some(Sections(doc.fields["recipes"].items, Get(doc.fields, "threading"), ColumnDocs(Get(doc.fields, "output"))))
  }

  /** The threading entries: a book without threading runs its last recipe. */
  function ThreadingDocs(threading: Json, last: string): (docs: seq<Json>)
    ensures docs != []
  {
    if !Truthy(threading) then [Obj(map["recipe" := Str(last)])]
    else if threading.Arr? then threading.items else [Null]
  }

  ghost function RecipesOf(docs: seq<Json>, split: Splitter): Result<seq<Recipe>, ()> {
    match ParseEach(docs, RecipeParser(split))
    case Ok(recipes) => if recipes != [] && DistinctNames(recipes) then Ok(recipes) else Err(())
    case Err(_) => Err(())
  }

  ghost function ThreadingOf(docs: seq<Json>, recipes: map<string, Recipe>): Result<seq<ThreadStep>, ()> {
    match ParseEach(docs, ParseStep)
    case Ok(steps) => if ThreadedInOrder(recipes, steps) then Ok(steps) else Err(())
    case Err(_) => Err(())
  }

  ghost function BookOf(d: Sections, split: Splitter): Result<Book, ()> {
    match RecipesOf(d.recipes, split)
    case Err(_) => Err(())
    case Ok(recipes) =>
      var byName := ByName(recipes);
      match (ThreadingOf(ThreadingDocs(d.threading, recipes[|recipes| - 1].name), byName), ParseEach(d.columns, ParseColumn))
      case (Ok(steps), Ok(columns)) => if columns != [] then Ok(Book(byName, steps, columns)) else Err(())
      case (_, _) => Err(())
  }

  /** Exactly the books whose parts parse, under distinct names, threaded in order. */
  ghost function Accepted(doc: Json, split: Splitter): Result<Book, ()> {
    match SectionsOf(doc) case None => Err(()) case Some(d) => BookOf(d, split)
  }

  lemma ParsedRecipeIsPageable(doc: Json, split: Splitter)
    requires ParseRecipe(doc, split).Ok?
    ensures Pageable(ParseRecipe(doc, split).value.pagination)
  {
  }

  lemma RecipesArePageable(docs: seq<Json>, split: Splitter)
    requires RecipesOf(docs, split).Ok?
    ensures forall recipe | recipe in RecipesOf(docs, split).value :: Pageable(recipe.pagination)
  {
    var recipes := RecipesOf(docs, split).value;
    forall recipe | recipe in recipes ensures Pageable(recipe.pagination) {
      var i :| 0 <= i < |recipes| && recipes[i] == recipe;
      assert RecipeParser(split)(docs[i]) == Ok(recipe);
      ParsedRecipeIsPageable(docs[i], split);
    }
  }

  /** What the engine may rely on: an accepted book is well formed. */
  lemma AcceptedIsWellFormed(doc: Json, split: Splitter)
    requires Accepted(doc, split).Ok?
    ensures WellFormed(Accepted(doc, split).value)
  {
    RecipesArePageable(SectionsOf(doc).value.recipes, split);
  }

  // ---- the loader's loops ------------------------------------------------

  lemma ParsedEach<T>(docs: seq<Json>, parse: Json -> Result<T, ()>, values: seq<T>)
    requires |values| == |docs| && forall j | 0 <= j < |docs| :: parse(docs[j]) == Ok(values[j])
    ensures ParseEach(docs, parse) == Ok(values)
  {
    var each := ParseEach(docs, parse);
    assert forall j | 0 <= j < |docs| :: parse(docs[j]) == Ok(each.value[j]) && each.value[j] == values[j];
    assert each.value == values;
  }

  lemma OneRefused<T>(docs: seq<Json>, parse: Json -> Result<T, ()>, i: nat)
    requires i < |docs| && parse(docs[i]).Err?
    ensures ParseEach(docs, parse) == Err(())
  {
    assert ParseEach(docs, parse).Err?;
  }

  method ParseRecipes(docs: seq<Json>, split: Splitter) returns (r: Result<seq<Recipe>, ()>)
    ensures r == ParseEach(docs, RecipeParser(split))
  {
    var recipes := [];
    for i := 0 to |docs|
      invariant |recipes| == i
      invariant forall j | 0 <= j < i :: RecipeParser(split)(docs[j]) == Ok(recipes[j])
    {
      var recipe := RecipeParser(split)(docs[i]);
      if recipe.Err? {
        OneRefused(docs, RecipeParser(split), i);
        return Err(());
      }
      recipes := recipes + [recipe.value];
    }
    ParsedEach(docs, RecipeParser(split), recipes);
    return Ok(recipes);
  }

  lemma NameTaken(front: seq<Recipe>, recipe: Recipe)
    requires DistinctNames(front)
    ensures recipe.name in ByName(front) <==> !DistinctNames(front + [recipe])
  {
    var more := front + [recipe];
    if recipe.name in ByName(front) {
      var i :| 0 <= i < |front| && front[i] == ByName(front)[recipe.name];
      assert more[i].name == more[|front|].name;
    } else {
      assert forall i | 0 <= i < |front| :: more[i] == front[i] && front[i] in front;
    }
  }

  lemma ByNameGrows(front: seq<Recipe>, recipe: Recipe)
    ensures ByName(front + [recipe]) == ByName(front)[recipe.name := recipe]
  {
    assert (front + [recipe])[..|front|] == front;
  }

  lemma DistinctPart(recipes: seq<Recipe>, i: nat)
    requires i <= |recipes|
    ensures DistinctNames(recipes) ==> DistinctNames(recipes[..i])
  {
  }

  method IndexByName(recipes: seq<Recipe>) returns (r: Result<map<string, Recipe>, ()>)
    ensures r == if DistinctNames(recipes) then Ok(ByName(recipes)) else Err(())
  {
    var byName := map[];
    for i := 0 to |recipes|
      invariant DistinctNames(recipes[..i]) && byName == ByName(recipes[..i])
    {
      NameTaken(recipes[..i], recipes[i]);
      ByNameGrows(recipes[..i], recipes[i]);
      assert recipes[..i + 1] == recipes[..i] + [recipes[i]];
      if recipes[i].name in byName {
        DistinctPart(recipes, i + 1);
        return Err(());
      }
      byName := byName[recipes[i].name := recipes[i]];
    }
    assert recipes[..|recipes|] == recipes;
    return Ok(byName);
  }

  /** A binding may only read a recipe that has already run. */
  method BindingsReadSeen(bind: map<string, string>, seen: set<string>) returns (ok: bool)
    ensures ok <==> forall t | t in bind :: Producer(bind[t]) in seen
  {
    var todo := bind.Keys;
    while todo != {}
      invariant todo <= bind.Keys
      invariant forall t | t in bind && t !in todo :: Producer(bind[t]) in seen
      decreases |todo|
    {
      var target :| target in todo;
      if Producer(bind[target]) !in seen {
        return false;
      }
      todo := todo - {target};
    }
    return true;
  }

  method ParseThreading(docs: seq<Json>, recipes: map<string, Recipe>) returns (r: Result<seq<ThreadStep>, ()>)
    ensures r == ThreadingOf(docs, recipes)
  {
    var threading: seq<ThreadStep>, seen: set<string> := [], {};
    for i := 0 to |docs|
      invariant |threading| == i && seen == Names(threading)
      invariant forall j | 0 <= j < i :: ParseStep(docs[j]) == Ok(threading[j])
      invariant ThreadedInOrder(recipes, threading)
    {
      var parsed := ParseStep(docs[i]);
      if parsed.Err? {
        OneRefused(docs, ParseStep, i);
        return Err(());
      }
      var step := parsed.value;
      var ok := step.recipe in recipes && recipes[step.recipe].declared.Some?
        && step.bind.Keys + step.params.Keys <= recipes[step.recipe].declared.value;
      if ok {
        ok := BindingsReadSeen(step.bind, seen);
      }
      if !ok {
        NoThreading(docs, recipes, threading, step);
        return Err(());
      }
      OneMoreStep(recipes, threading, step);
      threading := threading + [step];
      seen := seen + {step.recipe};
    }
    ParsedEach(docs, ParseStep, threading);
    return Ok(threading);
  }

  lemma NoThreading(docs: seq<Json>, recipes: map<string, Recipe>, steps: seq<ThreadStep>, step: ThreadStep)
    requires |steps| < |docs| && ParseStep(docs[|steps|]) == Ok(step)
    requires forall j | 0 <= j < |steps| :: ParseStep(docs[j]) == Ok(steps[j])
    requires !StepInOrder(recipes, Names(steps), step)
    ensures ThreadingOf(docs, recipes).Err?
  {
    var all := ParseEach(docs, ParseStep);
    if all.Ok? {
      assert all.value[..|steps|] == steps;
      assert all.value[|steps|] == step;
    }
  }

  lemma OneMoreStep(recipes: map<string, Recipe>, steps: seq<ThreadStep>, step: ThreadStep)
    requires ThreadedInOrder(recipes, steps) && StepInOrder(recipes, Names(steps), step)
    ensures ThreadedInOrder(recipes, steps + [step])
    ensures Names(steps + [step]) == Names(steps) + {step.recipe}
  {
    var more := steps + [step];
    forall i | 0 <= i < |more| ensures StepInOrder(recipes, Names(more[..i]), more[i]) {
      assert more[..i] == steps[..i];
      assert steps[..|steps|] == steps;
    }
    assert forall i | 0 <= i < |steps| :: more[i] == steps[i];
    assert more[|steps|] == step;
  }

  method ParseOutput(docs: seq<Json>) returns (r: Result<seq<OutputColumn>, ()>)
    ensures r == if docs == [] then Err(()) else ParseEach(docs, ParseColumn)
  {
    var columns := [];
    for i := 0 to |docs|
      invariant |columns| == i
      invariant forall j | 0 <= j < i :: ParseColumn(docs[j]) == Ok(columns[j])
    {
      var column := ParseColumn(docs[i]);
      if column.Err? {
        OneRefused(docs, ParseColumn, i);
        return Err(());
      }
      columns := columns + [column.value];
    }
    ParsedEach(docs, ParseColumn, columns);
    return if columns == [] then Err(()) else Ok(columns);
  }

  method ParseSections(d: Sections, split: Splitter) returns (r: Result<Book, ()>)
    ensures r == BookOf(d, split)
  {
    var recipes := ParseRecipes(d.recipes, split);
    if recipes.Err? || recipes.value == [] {
      return Err(());
    }
    var byName := IndexByName(recipes.value);
    if byName.Err? {
      return Err(());
    }
    var last := recipes.value[|recipes.value| - 1].name;
    var threading := ParseThreading(ThreadingDocs(d.threading, last), byName.value);
    if threading.Err? {
      return Err(());
    }
    var output := ParseOutput(d.columns);
    if output.Err? {
      return Err(());
    }
    return Ok(Book(byName.value, threading.value, output.value));
  }

  /** The loader accepts exactly the books it should, and an accepted book is well formed. */
  method ParseBook(doc: Json, split: Splitter) returns (r: Result<Book, ()>)
    ensures r == Accepted(doc, split)
    ensures r.Ok? ==> WellFormed(r.value)
  {
    var sections := SectionsOf(doc);
    if sections.None? {
      return Err(());
    }
    r := ParseSections(sections.value, split);
    if r.Ok? {
      AcceptedIsWellFormed(doc, split);
    }
  }
}
