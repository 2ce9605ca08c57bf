/** The SQL texts that create, drop, attach and detach print around quoted names, and how to read them back. */
module SchemaNames {
  import opened Prelude
  import opened Quoting
  import opened SchemaKeywords

  function SchemaPrefix(database: string): string {
    if database == [] then [] else Quoted(database) + "."
  }

  /** An unqualified view has the empty database name, which the qualified forms refuse. */
  datatype View = View(database: string, alias: string)

  function CreateKind(temporary: bool): string {
    if temporary then "CREATE TEMPORARY VIEW " else "CREATE VIEW "
  }

  function PrintedName(qualified: bool, view: View): string {
    (if qualified then SchemaPrefix(view.database) else "") + Quoted(view.alias)
  }

  /** `create` with and without a database name; `None` is the exception for an empty name. */
  function CreateText(temporary: bool, qualified: bool, view: View, query: string): Option<string> {
    if (qualified && view.database == []) || view.alias == [] then None
    else Some(CreateKind(temporary) + (PrintedName(qualified, view) + (" AS " + (query + ";"))))
  }

  function DropText(qualified: bool, view: View): Option<string> {
    if (qualified && view.database == []) || view.alias == [] then None
    else Some("DROP VIEW " + (PrintedName(qualified, view) + ";"))
  }

  function AttachText(alias: string): Option<string> {
    if alias == [] then None else Some("ATTACH DATABASE ? AS " + (Quoted(alias) + ";"))
  }

  function DetachText(alias: string): Option<string> {
    if alias == [] then None else Some("DETACH DATABASE " + (Quoted(alias) + ";"))
  }

  /** Reads an optional quoted database name with its dot, then a quoted alias. */
  function ReadName(text: string): Option<(View, string)> {
    match ReadQuoted(text)
    case None => None
    case Some((first, rest)) =>
      if rest == [] || rest[0] != '.' then Some((View("", first), rest))
      else
        match ReadQuoted(rest[1..])
        case None => None
        case Some((second, rest')) => Some((View(first, second), rest'))
  }

  /** `text` without the front `prefix`. */
  function Strip(prefix: string, text: string): Option<string> {
    if prefix <= text then Some(text[|prefix|..]) else None
  }

  datatype Created = Created(temporary: bool, view: View, query: string)

  function ReadBody(temporary: bool, text: string): Option<Created> {
    match ReadName(text)
    case None => None
    case Some((view, rest)) =>
      match Strip(" AS ", rest)
      case None => None
      case Some(query) => if query == [] then None else Some(Created(temporary, view, query[..|query| - 1]))
  }

  function ReadCreate(text: string): Option<Created> {
    match Strip("CREATE TEMPORARY VIEW ", text)
    case Some(body) => ReadBody(true, body)
    case None =>
      match Strip("CREATE VIEW ", text)
      case Some(body) => ReadBody(false, body)
      case None => None
  }

  function ReadDrop(text: string): Option<View> {
    match Strip("DROP VIEW ", text)
    case None => None
    case Some(body) =>
      match ReadName(body)
      case Some((view, rest)) => if rest == ";" then Some(view) else None
      case None => None
  }

  /** Reads a statement made of `head`, one quoted name and a semicolon. */
  function ReadAlias(head: string, text: string): Option<string> {
    match Strip(head, text)
    case None => None
    case Some(body) =>
      match ReadQuoted(body)
      case Some((alias, rest)) => if rest == ";" then Some(alias) else None
      case None => None
  }

  /** Attaching and detaching are refused exactly for an empty name, and otherwise say unambiguously which one. */
  lemma AliasRoundTrip(alias: string)
    ensures AttachText(alias).None? <==> alias == []
    ensures DetachText(alias).None? <==> alias == []
    ensures alias != [] ==> ReadAlias("ATTACH DATABASE ? AS ", AttachText(alias).value) == Some(alias)
    ensures alias != [] ==> ReadAlias("DETACH DATABASE ", DetachText(alias).value) == Some(alias)
  {
    ReadQuotedIff(Quoted(alias) + ";", alias, ";");
    StripFront("ATTACH DATABASE ? AS ", Quoted(alias) + ";");
    StripFront("DETACH DATABASE ", Quoted(alias) + ";");
  }

  /** The texts for one name each. */
  lemma AliasExamples()
    ensures AttachText("x") == Some("ATTACH DATABASE ? AS \"x\";")
    ensures DetachText("x") == Some("DETACH DATABASE \"x\";")
  {
    assert Quoted("x") == "\"x\"";
    assert "ATTACH DATABASE ? AS " + ("\"x\"" + ";") == "ATTACH DATABASE ? AS \"x\";";
    assert "DETACH DATABASE " + ("\"x\"" + ";") == "DETACH DATABASE \"x\";";
  }

  lemma DropExamples()
    ensures DropText(true, View("d", "v")) == Some("DROP VIEW \"d\".\"v\";")
    ensures DropText(false, View("", "v")) == Some("DROP VIEW \"v\";")
  {
    assert Quoted("d") == "\"d\"" && Quoted("v") == "\"v\"";
    assert PrintedName(true, View("d", "v")) == "\"d\".\"v\"";
    assert PrintedName(false, View("", "v")) == "\"v\"";
    assert "DROP VIEW " + ("\"d\".\"v\"" + ";") == "DROP VIEW \"d\".\"v\";";
    assert "DROP VIEW " + ("\"v\"" + ";") == "DROP VIEW \"v\";";
  }

  lemma CreateExamples()
    ensures CreateText(true, true, View("d", "v"), "q") == Some("CREATE TEMPORARY VIEW \"d\".\"v\" AS q;")
    ensures CreateText(false, false, View("", "v"), "q") == Some("CREATE VIEW \"v\" AS q;")
  {
    assert Quoted("d") == "\"d\"" && Quoted("v") == "\"v\"";
    assert PrintedName(true, View("d", "v")) == "\"d\".\"v\"";
    assert PrintedName(false, View("", "v")) == "\"v\"";
    assert "CREATE TEMPORARY VIEW " + ("\"d\".\"v\"" + (" AS " + ("q" + ";"))) ==
           "CREATE TEMPORARY VIEW \"d\".\"v\" AS q;";
    assert "CREATE VIEW " + ("\"v\"" + (" AS " + ("q" + ";"))) == "CREATE VIEW \"v\" AS q;";
  }

  /** A printed name is read back as the same pair, whatever text follows that is neither a quote nor a dot. */
  lemma NameRoundTrip(qualified: bool, view: View, rest: string)
    requires qualified || view.database == []
    requires rest == [] || (rest[0] != '"' && rest[0] != '.')
    ensures ReadName(PrintedName(qualified, view) + rest) == Some((view, rest))
  {
    var name := Quoted(view.alias) + rest;
    ReadQuotedIff(name, view.alias, rest);
    if view.database == [] {
      assert PrintedName(qualified, view) == Quoted(view.alias);
    } else {
      Assoc(Quoted(view.database) + ".", Quoted(view.alias), rest);
      Assoc(Quoted(view.database), ".", name);
      ReadQuotedIff(PrintedName(qualified, view) + rest, view.database, "." + name);
      assert ("." + name)[1..] == name;
    }
  }

  lemma StripFront(prefix: string, rest: string)
    ensures Strip(prefix, prefix + rest) == Some(rest)
  {
  }

  lemma KindsDiffer(rest: string)
    ensures Strip("CREATE TEMPORARY VIEW ", "CREATE VIEW " + rest) == None
  {
    assert ("CREATE VIEW " + rest)[7] == 'V' && "CREATE TEMPORARY VIEW "[7] == 'T';
  }

  /** The statement that creates a view says unambiguously which view and which query, whatever they contain. */
  lemma CreateRoundTrip(temporary: bool, qualified: bool, view: View, query: string)
    requires qualified || view.database == []
    ensures CreateText(temporary, qualified, view, query).None? <==>
            (qualified && view.database == []) || view.alias == []
    ensures CreateText(temporary, qualified, view, query).Some? ==>
              ReadCreate(CreateText(temporary, qualified, view, query).value) == Some(Created(temporary, view, query))
  {
    var tail := query + ";";
    var body := PrintedName(qualified, view) + (" AS " + tail);
    NameRoundTrip(qualified, view, " AS " + tail);
    StripFront(" AS ", tail);
    assert tail[..|tail| - 1] == query;
    assert ReadBody(temporary, body) == Some(Created(temporary, view, query));
    StripFront(CreateKind(temporary), body);
    KindsDiffer(body);
  }

  lemma DropRoundTrip(qualified: bool, view: View)
    requires qualified || view.database == []
    ensures DropText(qualified, view).None? <==> (qualified && view.database == []) || view.alias == []
    ensures DropText(qualified, view).Some? ==> ReadDrop(DropText(qualified, view).value) == Some(view)
  {
    NameRoundTrip(qualified, view, ";");
    StripFront("DROP VIEW ", PrintedName(qualified, view) + ";");
  }

  lemma UpperStays(keyword: string)
    requires keyword in KEYWORDS
    ensures Uppercase(keyword) == keyword
  {
    KeywordIsUpper(keyword);
  }

  /** A text that begins with `head`, the keyword and a blank, is schema changing. */
  lemma HeadDecides(head: string, n: nat, rest: string)
    requires n < |head| && head[..n] in KEYWORDS && IsDelimiter(head[n])
    ensures IsSchemaChanging(head + rest)
  {
    var sql := head + rest;
    assert sql[0..n] == head[..n];
    UpperStays(head[..n]);
    KeywordDecides(sql, 0, n);
  }

  /** Every statement these four operations print is one that empties the statement cache and bypasses it. */
  lemma NamesBypassCache(temporary: bool, qualified: bool, view: View, query: string, alias: string)
    ensures CreateText(temporary, qualified, view, query).Some? ==>
              IsSchemaChanging(CreateText(temporary, qualified, view, query).value)
    ensures DropText(qualified, view).Some? ==> IsSchemaChanging(DropText(qualified, view).value)
    ensures AttachText(alias).Some? ==> IsSchemaChanging(AttachText(alias).value)
    ensures DetachText(alias).Some? ==> IsSchemaChanging(DetachText(alias).value)
  {
    assert CreateKind(temporary)[..6] == "CREATE";
    HeadDecides(CreateKind(temporary), 6, PrintedName(qualified, view) + (" AS " + (query + ";")));
    assert "DROP VIEW "[..4] == "DROP";
    HeadDecides("DROP VIEW ", 4, PrintedName(qualified, view) + ";");
    assert "ATTACH DATABASE ? AS "[..6] == "ATTACH";
    HeadDecides("ATTACH DATABASE ? AS ", 6, Quoted(alias) + ";");
    assert "DETACH DATABASE "[..6] == "DETACH";
    HeadDecides("DETACH DATABASE ", 6, Quoted(alias) + ";");
  }
}
