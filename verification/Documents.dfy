/**
 * What a recipe book says: each part of an accepted book, value by value,
 * against the document it was read from, and no document says two books.
 */
module Documents {
  import opened Util
  import opened Cursor
  import opened Json
  import opened Recipes

  // ---- what a mapping says -----------------------------------------------

  predicate Has(doc: Json, key: string, v: Json) { doc.Obj? && key in doc.fields && doc.fields[key] == v }

  predicate Lacks(doc: Json, key: string) { doc.Obj? && key !in doc.fields }

  /** v is the key's value, or what stands for its absence. */
  predicate Says(doc: Json, key: string, v: Json, otherwise: Json) {
    Has(doc, key, v) || (Lacks(doc, key) && v == otherwise)
  }

  predicate OnlyKeys(doc: Json, keys: set<string>) { doc.Obj? && forall k | k in doc.fields :: k in keys }

  /** What Python takes for false. */
  predicate Falsy(v: Json) {
    v == Null || v == Bool(false) || v == Num(0) || v == Str([]) || v == Arr([]) || v == Obj(map[])
  }

  /** Absent, or there and false. */
  predicate Empty(doc: Json, key: string) { doc.Obj? && (key in doc.fields ==> Falsy(doc.fields[key])) }

  /** There, and true. */
  predicate Given(doc: Json, key: string) { doc.Obj? && key in doc.fields && !Falsy(doc.fields[key]) }

  predicate SaysMapping(doc: Json, key: string, m: map<string, Json>) {
    Has(doc, key, Obj(m)) || (Empty(doc, key) && m == map[])
  }

  predicate ReadsAs(v: Json, n: int) {
    v == Num(n) || (v == Bool(false) && n == 0) || (v == Bool(true) && n == 1) || (v.Str? && ParseInt(v.s) == Some(n))
  }

  predicate SaysInt(doc: Json, key: string, n: int, otherwise: int) {
    (Lacks(doc, key) && n == otherwise) || (doc.Obj? && key in doc.fields && ReadsAs(doc.fields[key], n))
  }

  /** The key's text, if it has one. */
  predicate SaysText(doc: Json, key: string, t: Option<string>) {
    match t
    case Some(s) => Has(doc, key, Str(s))
    case None => doc.Obj? && (key in doc.fields ==> !doc.fields[key].Str?)
  }

  // ---- output columns ----------------------------------------------------

  ghost predicate ColumnSays(doc: Json, c: OutputColumn) {
    && OnlyKeys(doc, {"name", "from", "type", "tz"})
    && Has(doc, "name", Str(c.name)) && Has(doc, "from", Str(c.source)) && Has(doc, "type", Str(c.kind))
    && (c.kind == "int64" || c.kind == "double" || c.kind == "string" || c.kind == "bool" || c.kind == "timestamp[us]")
    && (c.kind == "timestamp[us]" ==> Says(doc, "tz", Str("UTC"), Str("UTC")))
  }

  lemma ColumnExactly(doc: Json, c: OutputColumn)
    ensures ParseColumn(doc) == Ok(c) <==> ColumnSays(doc, c)
  {
  }

  // ---- threading steps ---------------------------------------------------

  /** A mapping to texts. */
  ghost predicate SaysTexts(doc: Json, key: string, m: map<string, string>) {
    || (Empty(doc, key) && m == map[])
    || (doc.Obj? && key in doc.fields && doc.fields[key].Obj?
        && var b := doc.fields[key].fields; b.Keys == m.Keys && forall t | t in m :: b[t] == Str(m[t]))
  }

  ghost predicate StepSays(doc: Json, step: ThreadStep) {
    && OnlyKeys(doc, {"recipe", "bind", "params"}) && Has(doc, "recipe", Str(step.recipe))
    && SaysTexts(doc, "bind", step.bind) && SaysMapping(doc, "params", step.params)
  }

  lemma StepExactly(doc: Json, step: ThreadStep)
    ensures ParseStep(doc) == Ok(step) <==> StepSays(doc, step)
  {
    if doc.Obj? && AsMapping(Get(doc.fields, "bind")).Some? {
      BindExactly(AsMapping(Get(doc.fields, "bind")).value, step.bind);
    }
  }

  lemma BindExactly(b: map<string, Json>, m: map<string, string>)
    ensures (forall t | t in b :: b[t].Str?) && m == TextsOf(b) <==> b.Keys == m.Keys && forall t | t in m :: b[t] == Str(m[t])
  {
    if b.Keys == m.Keys && forall t | t in m :: b[t] == Str(m[t]) {
      assert m == TextsOf(b);
    }
  }

  // ---- extracts ----------------------------------------------------------

  ghost predicate ExtractSays(doc: Json, e: Extract) {
    || (doc == Str(e.path) && e.shape.Records?)
    || (&& OnlyKeys(doc, {"path", "shape"}) && Has(doc, "path", Str(e.path))
        && (e.shape.Records? ==> Says(doc, "shape", Str("records"), Str("records")))
        && (e.shape.Columnar? ==> Has(doc, "shape", Str("columnar"))))
  }

  lemma ExtractExactly(doc: Json, e: Extract)
    ensures ParseExtract(doc) == Ok(e) <==> ExtractSays(doc, e)
  {
  }

  // ---- pagination --------------------------------------------------------

  predicate KindSays(doc: Json, kind: PageKind) {
    match kind
    case Single => Says(doc, "type", Str("none"), Str("none"))
    case ByCursor => Has(doc, "type", Str("cursor"))
    case ByNumber => Has(doc, "type", Str("page"))
    case ByLink => Has(doc, "type", Str("link-header"))
  }

  /** Further paths only where links are followed, each absolute. */
  ghost predicate PathsSay(doc: Json, kind: PageKind, paths: seq<string>) {
    || (Empty(doc, "allowed_next_paths") && paths == [])
    || (&& kind.ByLink? && paths != [] && doc.Obj? && "allowed_next_paths" in doc.fields
        && doc.fields["allowed_next_paths"].Arr? && |doc.fields["allowed_next_paths"].items| == |paths|
        && forall i | 0 <= i < |paths| ::
             doc.fields["allowed_next_paths"].items[i] == Str(paths[i]) && paths[i] != [] && paths[i][0] == '/')
  }

  predicate Worded(t: Option<string>) { t.Some? && t.value != [] }

  ghost predicate PagesSay(doc: Json, p: Pagination) {
    if doc.Null? then p == Pagination(Single, None, None, None, None, Null, "next", 100, [])
    else
      && OnlyKeys(doc, {"type", "cursor_path", "cursor_param", "page_param", "size_param", "page_size", "rel",
                        "max_pages", "allowed_next_paths"})
      && KindSays(doc, p.kind) && PathsSay(doc, p.kind, p.allowedNextPaths)
      && SaysInt(doc, "max_pages", p.maxPages, 100) && p.maxPages >= 1
      && SaysText(doc, "cursor_path", p.cursorPath) && SaysText(doc, "cursor_param", p.cursorParam)
      && SaysText(doc, "page_param", p.pageParam) && SaysText(doc, "size_param", p.sizeParam)
      && Says(doc, "page_size", p.pageSize, Null) && RelSays(doc, p.rel)
      && (p.kind.ByCursor? ==> Worded(p.cursorPath) && Worded(p.cursorParam))
      && (p.kind.ByNumber? ==> Worded(p.pageParam))
  }

  /** A relation that is not a text matches no link. */
  predicate RelSays(doc: Json, rel: string) {
    || Says(doc, "rel", Str(rel), Str("next"))
    || (rel == [] && doc.Obj? && "rel" in doc.fields && !doc.fields["rel"].Str?)
  }

  lemma KindExactly(d: map<string, Json>, kind: PageKind)
    ensures PageKindOf(GetOr(d, "type", Str("none"))) == Some(kind) <==> KindSays(Obj(d), kind)
  {
  }

  lemma PathsExactly(d: map<string, Json>, kind: PageKind, texts: seq<string>)
    ensures var paths := Get(d, "allowed_next_paths");
            !(Truthy(paths) && !(kind.ByLink? && AbsolutePaths(paths))) && texts == (if Truthy(paths) then Texts(paths.items) else [])
            <==>
            PathsSay(Obj(d), kind, texts)
  {
    var paths := Get(d, "allowed_next_paths");
    if Truthy(paths) && kind.ByLink? && AbsolutePaths(paths) {
      assert forall i | 0 <= i < |paths.items| :: paths.items[i] in paths.items;
    }
  }

  lemma MaxPagesExactly(d: map<string, Json>, n: int)
    ensures AsInt(GetOr(d, "max_pages", Num(DEFAULT_MAX_PAGES))) == Some(n) <==> SaysInt(Obj(d), "max_pages", n, 100)
  {
  }

  lemma TextExactly(d: map<string, Json>, key: string, t: Option<string>)
    ensures AsText(Get(d, key)) == t <==> SaysText(Obj(d), key, t)
    ensures NonEmptyText(Get(d, key)) <==> Worded(AsText(Get(d, key)))
  {
  }

  lemma PagesExactly(doc: Json, p: Pagination)
    ensures ParsePagination(doc) == Ok(p) <==> PagesSay(doc, p)
  {
    if doc.Obj? {
      var d := doc.fields;
      KindExactly(d, p.kind);
      PathsExactly(d, p.kind, p.allowedNextPaths);
      MaxPagesExactly(d, p.maxPages);
      TextExactly(d, "cursor_path", p.cursorPath);
      TextExactly(d, "cursor_param", p.cursorParam);
      TextExactly(d, "page_param", p.pageParam);
      TextExactly(d, "size_param", p.sizeParam);
    }
  }

  // ---- recipes -----------------------------------------------------------

  ghost predicate AuthSays(doc: Json) {
    || doc == Null
    || (&& OnlyKeys(doc, {"type", "env_file", "key_name"})
        && (|| Says(doc, "type", Str("none"), Str("none"))
            || ((Has(doc, "type", Str("header")) || Has(doc, "type", Str("query")))
                && Given(doc, "env_file") && Given(doc, "key_name"))))
  }

  lemma AuthExactly(doc: Json)
    ensures AuthInOrder(doc) <==> AuthSays(doc)
  {
  }

  /** The schema's properties declare exactly these names. */
  ghost predicate PropertiesDeclare(properties: Json, names: set<string>) {
    match properties
    case Obj(fields) => names == fields.Keys
    case Arr(items) => (forall v | v in items :: !v.Arr? && !v.Obj?) && forall n :: n in names <==> Str(n) in items
    case Str(text) => forall n :: n in names <==> |n| == 1 && n[0] in text
    case _ => false
  }

  ghost predicate SchemaDeclares(schema: Json, names: set<string>) {
    || (Falsy(schema) && names == {})
    || (schema.Obj? && exists p :: Says(schema, "properties", p, Obj(map[])) && PropertiesDeclare(p, names))
  }

  ghost predicate InputsSay(schema: Json, declared: Option<set<string>>) {
    match declared
    case Some(names) => SchemaDeclares(schema, names)
    case None => forall names :: !SchemaDeclares(schema, names)
  }

  lemma DeclaredNames(schema: Json, names: set<string>)
    ensures DeclaredIn(schema) == Some(names) <==> SchemaDeclares(schema, names)
  {
    if Truthy(schema) && schema.Obj? {
      var p := GetOr(schema.fields, "properties", Obj(map[]));
      assert Says(schema, "properties", p, Obj(map[]));
      PropertyNames(p, names);
    }
  }

  lemma PropertyNames(properties: Json, names: set<string>)
    ensures NamesIn(properties) == Some(names) <==> PropertiesDeclare(properties, names)
  {
    if properties.Arr? {
      var items := properties.items;
      var own := set v | v in items && v.Str? :: v.s;
      assert forall n :: n in own <==> Str(n) in items;
      assert (forall n :: n in names <==> Str(n) in items) ==> names == own;
    } else if properties.Str? {
      var text := properties.s;
      var own := set c | c in text :: [c];
      forall n ensures n in own <==> |n| == 1 && n[0] in text {
        assert |n| == 1 ==> n == [n[0]];
      }
      assert (forall n :: n in names <==> |n| == 1 && n[0] in text) ==> names == own;
    }
  }

  lemma InputsExactly(schema: Json, declared: Option<set<string>>)
    ensures DeclaredIn(schema) == declared <==> InputsSay(schema, declared)
  {
    forall names ensures DeclaredIn(schema) == Some(names) <==> SchemaDeclares(schema, names) {
      DeclaredNames(schema, names);
    }
    if DeclaredIn(schema).Some? {
      assert SchemaDeclares(schema, DeclaredIn(schema).value);
    }
  }

  /** https, with a host and no placeholder, split into what requests are held to. */
  ghost predicate UrlSays(url: string, split: Splitter, pinned: Url) {
    split(url) == Some(pinned) && pinned.scheme == "https" && pinned.host != [] && '{' !in url && '}' !in url
  }

  /** GET or POST, in any case. */
  ghost predicate MethodSays(doc: Json, m: string) {
    && (m == "GET" || m == "POST") && doc.Obj? && "method" in doc.fields && doc.fields["method"].Str?
    && var s := doc.fields["method"].s;
       |s| == |m| && forall i | 0 <= i < |m| :: s[i] == m[i] || s[i] as int == m[i] as int + 0x20
  }

  lemma MethodExactly(d: map<string, Json>, m: string)
    ensures Get(d, "method").Str? && Upper(d["method"].s) == m && m in {"GET", "POST"} <==> MethodSays(Obj(d), m)
  {
    if MethodSays(Obj(d), m) {
      var s := d["method"].s;
      forall i | 0 <= i < |s| ensures Upper(s)[i] == m[i] {
      }
      assert Upper(s) == m;
    }
  }

  const RECIPE_WORDS := {"name", "method", "url", "auth", "params_schema", "response_schema", "pagination", "extract",
                         "static_params"}

  ghost predicate AuthUnder(doc: Json) { exists v :: Says(doc, "auth", v, Null) && AuthSays(v) }

  ghost predicate PagesUnder(doc: Json, p: Pagination) { exists v :: Says(doc, "pagination", v, Null) && PagesSay(v, p) }

  ghost predicate ExtractUnder(doc: Json, e: Extract) { exists v :: Has(doc, "extract", v) && ExtractSays(v, e) }

  ghost predicate InputsUnder(doc: Json, declared: Option<set<string>>) {
    exists v :: Says(doc, "params_schema", v, Null) && InputsSay(v, declared)
  }

  ghost predicate RecipeSays(doc: Json, split: Splitter, r: Recipe) {
    && OnlyKeys(doc, RECIPE_WORDS)
    && Has(doc, "name", Str(r.name)) && Has(doc, "url", Str(r.url)) && UrlSays(r.url, split, r.pinned)
    && MethodSays(doc, r.method_)
    && "response_schema" in doc.fields && doc.fields["response_schema"].Obj?
    && AuthUnder(doc) && PagesUnder(doc, r.pagination) && ExtractUnder(doc, r.extract) && InputsUnder(doc, r.declared)
    && SaysMapping(doc, "static_params", r.staticParams)
  }

  lemma PartsExactly(d: map<string, Json>, r: Recipe)
    ensures AuthInOrder(Get(d, "auth")) <==> AuthUnder(Obj(d))
    ensures ParsePagination(Get(d, "pagination")) == Ok(r.pagination) <==> PagesUnder(Obj(d), r.pagination)
    ensures ParseExtract(Get(d, "extract")) == Ok(r.extract) <==> ExtractUnder(Obj(d), r.extract)
    ensures DeclaredIn(Get(d, "params_schema")) == r.declared <==> InputsUnder(Obj(d), r.declared)
  {
    AuthExactly(Get(d, "auth"));
    PagesExactly(Get(d, "pagination"), r.pagination);
    ExtractExactly(Get(d, "extract"), r.extract);
    InputsExactly(Get(d, "params_schema"), r.declared);
    SubExactly(d, r);
  }

  lemma SubExactly(d: map<string, Json>, r: Recipe)
    ensures AuthUnder(Obj(d)) <==> AuthSays(Get(d, "auth"))
    ensures PagesUnder(Obj(d), r.pagination) <==> PagesSay(Get(d, "pagination"), r.pagination)
    ensures ExtractUnder(Obj(d), r.extract) <==> "extract" in d && ExtractSays(d["extract"], r.extract)
    ensures InputsUnder(Obj(d), r.declared) <==> InputsSay(Get(d, "params_schema"), r.declared)
  {
    assert Says(Obj(d), "auth", Get(d, "auth"), Null);
    assert Says(Obj(d), "pagination", Get(d, "pagination"), Null);
    assert Says(Obj(d), "params_schema", Get(d, "params_schema"), Null);
    assert "extract" in d ==> Has(Obj(d), "extract", d["extract"]);
  }

  lemma UrlExactly(url: string, split: Splitter, pinned: Url)
    ensures Pin(url, split) == Some(pinned) <==> UrlSays(url, split, pinned)
  {
  }

  lemma MappingExactly(d: map<string, Json>, key: string, m: map<string, Json>)
    ensures AsMapping(Get(d, key)) == Some(m) <==> SaysMapping(Obj(d), key, m)
  {
  }

  lemma RecipeExactly(doc: Json, split: Splitter, r: Recipe)
    ensures ParseRecipe(doc, split) == Ok(r) <==> RecipeSays(doc, split, r)
  {
    if doc.Obj? {
      var d := doc.fields;
      MethodExactly(d, r.method_);
      UrlExactly(r.url, split, r.pinned);
      MappingExactly(d, "static_params", r.staticParams);
      PartsExactly(d, r);
    }
  }

  // ---- whole books -------------------------------------------------------

  /** Positive limits, where given. */
  ghost predicate LimitsSay(doc: Json) {
    || Falsy(doc)
    || (&& OnlyKeys(doc, {"max_response_bytes", "timeout_s"})
        && (exists n: nat :: n > 0 && SaysInt(doc, "max_response_bytes", n, 1))
        && exists n: nat :: n > 0 && SaysInt(doc, "timeout_s", n, 1))
  }

  lemma LimitExactly(d: map<string, Json>, key: string)
    ensures var n := AsInt(GetOr(d, key, Num(1)));
            n.Some? && n.value > 0 <==> exists n: nat :: n > 0 && SaysInt(Obj(d), key, n, 1)
  {
    var n := AsInt(GetOr(d, key, Num(1)));
    assert forall k :: n == Some(k) <==> SaysInt(Obj(d), key, k, 1);
  }

  lemma LimitsExactly(doc: Json)
    ensures LimitsInOrder(doc) <==> LimitsSay(doc)
  {
    if doc.Obj? {
      LimitExactly(doc.fields, "max_response_bytes");
      LimitExactly(doc.fields, "timeout_s");
    }
  }

  /** A recipe for each document, no two of one name. */
  ghost predicate RecipesSay(docs: seq<Json>, split: Splitter, list: seq<Recipe>) {
    && docs != [] && |list| == |docs| && (forall i | 0 <= i < |docs| :: RecipeSays(docs[i], split, list[i]))
    && forall i, j | 0 <= i < j < |list| :: list[i].name != list[j].name
  }

  /** Each recipe under its own name, and nothing under another. */
  ghost predicate Indexed(list: seq<Recipe>, recipes: map<string, Recipe>) {
    && (forall i | 0 <= i < |list| :: list[i].name in recipes && recipes[list[i].name] == list[i])
    && forall n | n in recipes :: exists i :: 0 <= i < |list| && list[i].name == n
  }

  /** The steps the threading lists, or the last recipe alone where it lists none. */
  ghost predicate StepsSay(threading: Json, last: string, steps: seq<ThreadStep>) {
    if Falsy(threading) then steps == [ThreadStep(last, map[], map[])]
    else
      && threading.Arr? && |threading.items| == |steps|
      && forall i | 0 <= i < |steps| :: StepSays(threading.items[i], steps[i])
  }

  ghost predicate ColumnsSay(output: Json, columns: seq<OutputColumn>) {
    && output.Obj? && "columns" in output.fields && output.fields["columns"].Arr?
    && columns != [] && |output.fields["columns"].items| == |columns|
    && forall i | 0 <= i < |columns| :: ColumnSays(output.fields["columns"].items[i], columns[i])
  }

  lemma ColumnsExactly(output: Json, columns: seq<OutputColumn>)
    ensures columns != [] && ParseEach(ColumnDocs(output), ParseColumn) == Ok(columns) <==> ColumnsSay(output, columns)
  {
    var docs := ColumnDocs(output);
    forall i | 0 <= i < |docs| && i < |columns|
      ensures ParseColumn(docs[i]) == Ok(columns[i]) <==> ColumnSays(docs[i], columns[i])
    {
      ColumnExactly(docs[i], columns[i]);
    }
    EachExactly(docs, ParseColumn, columns);
  }

  /** The parsed list is the list of the parsed. */
  lemma EachExactly<T>(docs: seq<Json>, parse: Json -> Result<T, ()>, values: seq<T>)
    ensures ParseEach(docs, parse) == Ok(values)
       <==> |values| == |docs| && forall i | 0 <= i < |docs| :: parse(docs[i]) == Ok(values[i])
  {
    if |values| == |docs| && forall i | 0 <= i < |docs| :: parse(docs[i]) == Ok(values[i]) {
      ParsedEach(docs, parse, values);
    }
  }

  lemma StepsExactly(threading: Json, last: string, steps: seq<ThreadStep>)
    ensures ParseEach(ThreadingDocs(threading, last), ParseStep) == Ok(steps) <==> StepsSay(threading, last, steps)
  {
    var docs := ThreadingDocs(threading, last);
    forall i | 0 <= i < |docs| && i < |steps|
      ensures ParseStep(docs[i]) == Ok(steps[i]) <==> StepSays(docs[i], steps[i])
    {
      StepExactly(docs[i], steps[i]);
    }
    EachExactly(docs, ParseStep, steps);
    if Falsy(threading) {
      LastAlone(last, steps);
    }
  }

  lemma LastAlone(last: string, steps: seq<ThreadStep>)
    ensures |steps| == 1 && StepSays(Obj(map["recipe" := Str(last)]), steps[0]) <==> steps == [ThreadStep(last, map[], map[])]
  {
  }

  lemma RecipesExactly(docs: seq<Json>, split: Splitter, list: seq<Recipe>)
    ensures RecipesOf(docs, split) == Ok(list) <==> RecipesSay(docs, split, list)
  {
    forall i | 0 <= i < |docs| && i < |list|
      ensures RecipeParser(split)(docs[i]) == Ok(list[i]) <==> RecipeSays(docs[i], split, list[i])
    {
      RecipeExactly(docs[i], split, list[i]);
    }
    EachExactly(docs, RecipeParser(split), list);
  }

  lemma IndexedExactly(list: seq<Recipe>, recipes: map<string, Recipe>)
    requires DistinctNames(list)
    ensures ByName(list) == recipes <==> Indexed(list, recipes)
  {
    var byName := ByName(list);
    forall i | 0 <= i < |list| ensures list[i].name in byName && byName[list[i].name] == list[i] {
      assert list[i] in list;
      var j :| 0 <= j < |list| && list[j] == byName[list[i].name];
    }
    assert Indexed(list, byName) by {
      forall n | n in byName ensures exists i :: 0 <= i < |list| && list[i].name == n {
        var i :| 0 <= i < |list| && list[i] == byName[n];
      }
    }
    if Indexed(list, recipes) {
      SameIndex(list, byName, recipes);
    }
  }

  lemma SameIndex(list: seq<Recipe>, a: map<string, Recipe>, b: map<string, Recipe>)
    requires Indexed(list, a) && Indexed(list, b)
    ensures a == b
  {
  }

  /** Recipes, threading and columns are those the three documents spell out. */
  ghost predicate PartsSay(recipes: seq<Json>, threading: Json, output: Json, split: Splitter, list: seq<Recipe>, book: Book) {
    && RecipesSay(recipes, split, list) && Indexed(list, book.recipes)
    && StepsSay(threading, list[|list| - 1].name, book.threading) && ThreadedInOrder(book.recipes, book.threading)
    && ColumnsSay(output, book.output)
  }

  lemma ThreadingExactly(threading: Json, last: string, recipes: map<string, Recipe>, steps: seq<ThreadStep>)
    ensures ThreadingOf(ThreadingDocs(threading, last), recipes) == Ok(steps)
       <==> StepsSay(threading, last, steps) && ThreadedInOrder(recipes, steps)
  {
    StepsExactly(threading, last, steps);
  }

  lemma BookInParts(d: Sections, split: Splitter, list: seq<Recipe>, book: Book)
    requires RecipesOf(d.recipes, split) == Ok(list)
    ensures BookOf(d, split) == Ok(book)
       <==> && ByName(list) == book.recipes
            && ThreadingOf(ThreadingDocs(d.threading, list[|list| - 1].name), book.recipes) == Ok(book.threading)
            && book.output != [] && ParseEach(d.columns, ParseColumn) == Ok(book.output)
  {
  }

  lemma PartsOfBook(d: Sections, output: Json, split: Splitter, list: seq<Recipe>, book: Book)
    requires RecipesOf(d.recipes, split) == Ok(list) && d.columns == ColumnDocs(output)
    ensures BookOf(d, split) == Ok(book) <==> PartsSay(d.recipes, d.threading, output, split, list, book)
  {
    BookInParts(d, split, list, book);
    RecipesExactly(d.recipes, split, list);
    IndexedExactly(list, book.recipes);
    ThreadingExactly(d.threading, list[|list| - 1].name, book.recipes, book.threading);
    ColumnsExactly(output, book.output);
  }

  /** The book is what the document says. */
  ghost predicate BookSays(doc: Json, split: Splitter, book: Book) {
    && OnlyKeys(doc, {"dataset", "recipes", "threading", "output", "limits"}) && "dataset" in doc.fields
    && (exists limits :: Says(doc, "limits", limits, Null) && LimitsSay(limits))
    && exists recipes, threading, output, list ::
         && Has(doc, "recipes", Arr(recipes)) && Says(doc, "threading", threading, Null) && Has(doc, "output", output)
         && PartsSay(recipes, threading, output, split, list, book)
  }

  /**
   * The loader reads documents exactly: a book is accepted from a document if
   * and only if it is, value by value, what the document says, so a document
   * says at most one book and a refused one says none.
   */
  lemma BookExactly(doc: Json, split: Splitter, book: Book)
    ensures Accepted(doc, split) == Ok(book) <==> BookSays(doc, split, book)
  {
    if Accepted(doc, split) == Ok(book) {
      AcceptedSays(doc, split, book);
    }
    if BookSays(doc, split, book) {
      SaidIsAccepted(doc, split, book);
    }
  }

  lemma AcceptedSays(doc: Json, split: Splitter, book: Book)
    requires Accepted(doc, split) == Ok(book)
    ensures BookSays(doc, split, book)
  {
    var d := SectionsOf(doc).value;
    var list, output := RecipesOf(d.recipes, split).value, Get(doc.fields, "output");
    LimitsExactly(Get(doc.fields, "limits"));
    assert Says(doc, "limits", Get(doc.fields, "limits"), Null);
    PartsOfBook(d, output, split, list, book);
    assert Has(doc, "recipes", Arr(d.recipes)) && Says(doc, "threading", d.threading, Null);
    assert Has(doc, "output", output);
  }

  lemma SectionsSaid(doc: Json, recipes: seq<Json>, threading: Json, output: Json)
    requires OnlyKeys(doc, {"dataset", "recipes", "threading", "output", "limits"}) && "dataset" in doc.fields
    requires exists limits :: Says(doc, "limits", limits, Null) && LimitsSay(limits)
    requires Has(doc, "recipes", Arr(recipes)) && Says(doc, "threading", threading, Null) && Has(doc, "output", output)
    ensures SectionsOf(doc) == Some(Sections(recipes, threading, ColumnDocs(output)))
  {
    var limits :| Says(doc, "limits", limits, Null) && LimitsSay(limits);
    LimitsExactly(limits);
  }

  lemma PartsAreAccepted(d: Sections, output: Json, split: Splitter, list: seq<Recipe>, book: Book)
    requires PartsSay(d.recipes, d.threading, output, split, list, book) && d.columns == ColumnDocs(output)
    ensures BookOf(d, split) == Ok(book)
  {
    RecipesExactly(d.recipes, split, list);
    PartsOfBook(d, output, split, list, book);
  }

  lemma SaidIsAccepted(doc: Json, split: Splitter, book: Book)
    requires BookSays(doc, split, book)
    ensures Accepted(doc, split) == Ok(book)
  {
    var recipes, threading, output, list :|
      && Has(doc, "recipes", Arr(recipes)) && Says(doc, "threading", threading, Null) && Has(doc, "output", output)
      && PartsSay(recipes, threading, output, split, list, book);
    SectionsSaid(doc, recipes, threading, output);
    PartsAreAccepted(Sections(recipes, threading, ColumnDocs(output)), output, split, list, book);
  }
}
