/** Parsing, validation and catalog quoting of the "schema.table" names given to
    the include-relation options. */
module Options {
  import opened Outcomes
  import opened Sequences
  import opened Text

  /** A relation named by its schema and table. */
  datatype FqnStruct = FqnStruct(schemaName: string, tableName: string)

  /** The "schema.table" spelling of a relation name. */
  function QualifiedName(f: FqnStruct): string
  {
    f.schemaName + "." + f.tableName
  }

  /** A usable schema or table name: not empty and free of the separator dot. */
  predicate IsNamePart(s: string)
  {
    s != "" && '.' !in s
  }

  function DotCount(s: string): nat
  {
    if s == [] then 0 else (if s[0] == '.' then 1 else 0) + DotCount(s[1..])
  }

  lemma {:induction false} DotCountZero(s: string)
    ensures DotCount(s) == 0 <==> '.' !in s
  {
    if s != [] {
      DotCountZero(s[1..]);
      assert s == [s[0]] + s[1..];
    }
  }

  lemma {:induction false} DotCountAppend(a: string, b: string)
    ensures DotCount(a + b) == DotCount(a) + DotCount(b)
  {
    if a == [] {
      assert a + b == b;
    } else {
      assert (a + b)[1..] == a[1..] + b;
      DotCountAppend(a[1..], b);
    }
  }

  /** An entry names a relation when it holds exactly one dot and that dot is
      neither its first nor its last character; every other character, punctuation
      included, is part of a name. */
  predicate WellFormed(entry: string)
  {
    |entry| > 0 && DotCount(entry) == 1 && entry[0] != '.' && entry[|entry| - 1] != '.'
  }

  /** The pieces between dots (Go's `strings.Split(s, ".")`): one more piece than dots. */
  function SplitOnDot(s: string): (parts: seq<string>)
    ensures |parts| == DotCount(s) + 1
    ensures forall i | 0 <= i < |parts| :: '.' !in parts[i]
  {
    if s == [] then [""]
    else
      var rest := SplitOnDot(s[1..]);
      if s[0] == '.' then [""] + rest
      else [[s[0]] + rest[0]] + rest[1..]
  }

  /** Joining the pieces with dots gives back the input. */
  lemma {:induction false} SplitThenJoin(s: string)
    ensures JoinWith(SplitOnDot(s), ".") == s
  {
    if s != [] {
      var rest := SplitOnDot(s[1..]);
      SplitThenJoin(s[1..]);
      if s[0] == '.' {
        assert SplitOnDot(s)[1..] == rest;
      } else {
        var parts := SplitOnDot(s);
        assert parts[1..] == rest[1..];
        if |rest| > 1 {
          assert JoinWith(rest, ".") == rest[0] + "." + JoinWith(rest[1..], ".");
        }
      }
      assert s == [s[0]] + s[1..];
    }
  }

  /** A dot-free prefix extends the first piece. */
  lemma {:induction false} SplitDotFreePrefix(x: string, y: string)
    requires '.' !in x
    ensures SplitOnDot(x + y) == [x + SplitOnDot(y)[0]] + SplitOnDot(y)[1..]
  {
    var ys := SplitOnDot(y);
    if x == [] {
      assert x + y == y && x + ys[0] == ys[0];
      assert ys == [ys[0]] + ys[1..];
    } else {
      var tail := x[1..] + y;
      assert (x + y)[1..] == tail;
      assert (x + y)[0] == x[0] && x[0] != '.';
      SplitDotFreePrefix(x[1..], y);
      var rest := SplitOnDot(tail);
      assert rest == [x[1..] + ys[0]] + ys[1..];
      assert SplitOnDot(x + y) == [[x[0]] + rest[0]] + rest[1..];
      assert [x[0]] + (x[1..] + ys[0]) == x + ys[0];
    }
  }

  /** Splitting dot-free pieces joined with dots gives back the pieces. */
  lemma {:induction false} JoinThenSplit(parts: seq<string>)
    requires |parts| >= 1
    requires forall i | 0 <= i < |parts| :: '.' !in parts[i]
    ensures SplitOnDot(JoinWith(parts, ".")) == parts
  {
    if |parts| == 1 {
      SplitDotFreePrefix(parts[0], "");
      assert parts[0] + "" == parts[0];
    } else {
      var rest := JoinWith(parts[1..], ".");
      JoinThenSplit(parts[1..]);
      SplitDotFreePrefix(parts[0], "." + rest);
      assert ("." + rest)[1..] == rest;
      var dotted := SplitOnDot("." + rest);
      assert dotted == [""] + parts[1..];
      assert dotted[0] == "" && dotted[1..] == parts[1..];
      assert parts[0] + "." + rest == parts[0] + ("." + rest);
      assert JoinWith(parts, ".") == parts[0] + ("." + rest);
      assert SplitOnDot(JoinWith(parts, ".")) == [parts[0] + ""] + parts[1..];
      assert parts[0] + "" == parts[0];
      assert parts == [parts[0]] + parts[1..];
    }
  }

  /** Why an entry could not be split. */
  datatype Defect = MissingDot | ExtraDots | EmptySchemaName | EmptyTableName

  /** Splits one entry at its dot. */
  function ParseEntry(entry: string): (r: Result<FqnStruct, Defect>)
    ensures r.Ok? <==> WellFormed(entry)
    ensures r.Ok? ==> IsNamePart(r.value.schemaName) && IsNamePart(r.value.tableName)
                      && QualifiedName(r.value) == entry
    ensures r == Err(MissingDot) <==> '.' !in entry
    ensures r == Err(ExtraDots) <==> DotCount(entry) > 1
    ensures r == Err(EmptySchemaName) <==> |entry| > 0 && DotCount(entry) == 1 && entry[0] == '.'
    ensures r == Err(EmptyTableName) <==> |entry| > 0 && DotCount(entry) == 1 && entry[0] != '.' && entry[|entry| - 1] == '.'
  {
    var parts := SplitOnDot(entry);
    SplitThenJoin(entry);
    DotCountZero(entry);
    if |parts| > 2 then Err(ExtraDots)
    else if |parts| < 2 then Err(MissingDot)
    else
      assert JoinWith(parts, ".") == parts[0] + "." + parts[1];
      ParseEntryShape(entry, parts[0], parts[1]);
      EdgeCharacters(entry, parts[0], parts[1]);
      if parts[0] == "" then Err(EmptySchemaName)
      else if parts[1] == "" then Err(EmptyTableName)
      else Ok(FqnStruct(parts[0], parts[1]))
  }

  /** For an entry with exactly one dot, well-formedness means both sides are non-empty. */
  lemma ParseEntryShape(entry: string, schema: string, table: string)
    requires entry == schema + "." + table && '.' !in schema && '.' !in table
    ensures WellFormed(entry) <==> schema != "" && table != ""
  {
    DotCountZero(schema);
    DotCountZero(table);
    DotCountAppend(schema, "." + table);
    DotCountAppend(".", table);
    assert schema + "." + table == schema + ("." + table);
  }

  /** The dot of a one-dot entry is its first character exactly when the schema side
      is empty, and its last character exactly when the table side is empty. */
  lemma EdgeCharacters(entry: string, schema: string, table: string)
    requires entry == schema + "." + table && '.' !in schema && '.' !in table
    ensures entry[0] == '.' <==> schema == ""
    ensures entry[|entry| - 1] == '.' <==> table == ""
  {
    if schema != "" {
      assert entry[0] == schema[0];
    }
    if table != "" {
      assert entry[|entry| - 1] == table[|table| - 1];
    }
  }

  /** Splitting the spelling of a relation name recovers it. */
  lemma ParseQualifiedName(f: FqnStruct)
    requires IsNamePart(f.schemaName) && IsNamePart(f.tableName)
    ensures ParseEntry(QualifiedName(f)) == Ok(f)
  {
    JoinThenSplit([f.schemaName, f.tableName]);
    assert [f.schemaName, f.tableName][1..] == [f.tableName];
    assert JoinWith([f.schemaName, f.tableName], ".") == QualifiedName(f);
  }

  /** An entry that could not be split, and why. */
  datatype Rejection = Rejection(entry: string, defect: Defect)

  function EntryOf(r: Rejection): string { r.entry }

  /** The malformed entries with their defects, in input order. */
  function Rejections(tableList: seq<string>): (r: seq<Rejection>)
    ensures MapSeq(r, EntryOf) == Filter(tableList, WellFormed, false)
    ensures forall k | 0 <= k < |r| :: ParseEntry(r[k].entry) == Err(r[k].defect)
  {
    if tableList == [] then []
    else
      var head := match ParseEntry(tableList[0])
        case Ok(_) => []
        case Err(defect) => [Rejection(tableList[0], defect)];
      var rest := Rejections(tableList[1..]);
      MapSeqAppend(head, rest, EntryOf);
      head + rest
  }

  /** The names of entries that are all well formed, in input order. */
  function SplitAll(tableList: seq<string>): (r: seq<FqnStruct>)
    requires forall i | 0 <= i < |tableList| :: WellFormed(tableList[i])
    ensures |r| == |tableList|
    ensures forall i | 0 <= i < |tableList| :: ParseEntry(tableList[i]) == Ok(r[i])
  {
    if tableList == [] then []
    else
      assert forall i | 1 <= i < |tableList| :: tableList[i] == tableList[1..][i - 1];
      [ParseEntry(tableList[0]).value] + SplitAll(tableList[1..])
  }

  /** Splits every entry; when any entry is malformed, the result lists every
      malformed entry, in input order, and nothing else. */
  function SeparateSchemaAndTable(tableList: seq<string>): (r: Result<seq<FqnStruct>, seq<Rejection>>)
    ensures r.Ok? <==> forall i | 0 <= i < |tableList| :: WellFormed(tableList[i])
    ensures r.Ok? ==> |r.value| == |tableList|
    ensures r.Ok? ==> forall i | 0 <= i < |tableList| ::
      && ParseEntry(tableList[i]) == Ok(r.value[i])
      && QualifiedName(r.value[i]) == tableList[i]
    ensures r.Err? ==> r.error != []
    ensures r.Err? ==> MapSeq(r.error, EntryOf) == Filter(tableList, WellFormed, false)
    ensures r.Err? ==> forall k | 0 <= k < |r.error| :: ParseEntry(r.error[k].entry) == Err(r.error[k].defect)
  {
    var rejections := Rejections(tableList);
    FilterMembers(tableList, WellFormed, false);
    assert rejections == [] <==> Filter(tableList, WellFormed, false) == [];
    if rejections == [] then Ok(SplitAll(tableList)) else Err(rejections)
  }

  function DefectText(d: Defect): string
  {
    match d
    case MissingDot => "no dot between SchemaName and TableName"
    case ExtraDots => "more than one dot"
    case EmptySchemaName => "empty SchemaName"
    case EmptyTableName => "empty TableName"
  }

  function RejectionText(r: Rejection): string
  {
    r.entry + " (" + DefectText(r.defect) + ")"
  }

  /** The text of the aggregated error that lists every rejected entry. */
  function RejectionMessage(rejections: seq<Rejection>): (msg: string)
    ensures forall k | 0 <= k < |rejections| :: Contains(msg, rejections[k].entry)
  {
    var items := MapSeq(rejections, RejectionText);
    JoinContainsItems(items, ", ");
    NamesEachRejection(rejections, items, "Cannot process fully qualified table names: ");
    "Cannot process fully qualified table names: " + JoinWith(items, ", ")
  }

  lemma RejectionTextNamesEntry(r: Rejection)
    ensures Contains(RejectionText(r), r.entry)
  {
    ContainsInMiddle("", r.entry, " (" + DefectText(r.defect) + ")");
    assert "" + r.entry + (" (" + DefectText(r.defect) + ")") == RejectionText(r);
  }

  lemma NamesEachRejection(rejections: seq<Rejection>, items: seq<string>, prefix: string)
    requires items == MapSeq(rejections, RejectionText)
    requires forall k | 0 <= k < |items| :: Contains(JoinWith(items, ", "), items[k])
    ensures forall k | 0 <= k < |rejections| :: Contains(prefix + JoinWith(items, ", "), rejections[k].entry)
  {
    var joined := JoinWith(items, ", ");
    forall k | 0 <= k < |rejections|
      ensures Contains(prefix + joined, rejections[k].entry)
    {
      RejectionTextNamesEntry(rejections[k]);
      ContainsTransitive(joined, items[k], rejections[k].entry);
      ContainsWithin(prefix, joined, "", rejections[k].entry);
      assert prefix + joined + "" == prefix + joined;
    }
  }

  /** Checks every entry and reports all malformed ones in one error. */
  function ValidateCharacters(tableList: seq<string>): (r: Outcome<string>)
    ensures r.Pass? <==> forall i | 0 <= i < |tableList| :: WellFormed(tableList[i])
    ensures r.Fail? ==> forall i | 0 <= i < |tableList| && !WellFormed(tableList[i]) :: Contains(r.error, tableList[i])
  {
    var invalid := Filter(tableList, WellFormed, false);
    FilterMembers(tableList, WellFormed, false);
    JoinContainsItems(invalid, ", ");
    InvalidListed(tableList, invalid, "Invalid fully qualified table names, expected schema.table: ");
    if invalid == [] then Pass
    else Fail("Invalid fully qualified table names, expected schema.table: " + JoinWith(invalid, ", "))
  }

  lemma InvalidListed(tableList: seq<string>, invalid: seq<string>, prefix: string)
    requires forall x :: x in invalid <==> x in tableList && !WellFormed(x)
    requires forall k | 0 <= k < |invalid| :: Contains(JoinWith(invalid, ", "), invalid[k])
    ensures forall i | 0 <= i < |tableList| && !WellFormed(tableList[i]) :: Contains(prefix + JoinWith(invalid, ", "), tableList[i])
  {
    forall i | 0 <= i < |tableList| && !WellFormed(tableList[i])
      ensures Contains(prefix + JoinWith(invalid, ", "), tableList[i])
    {
      var k :| 0 <= k < |invalid| && invalid[k] == tableList[i];
      ContainsWithin(prefix, JoinWith(invalid, ", "), "", tableList[i]);
      assert prefix + JoinWith(invalid, ", ") + "" == prefix + JoinWith(invalid, ", ");
    }
  }

  /** The error text of a failed split names every malformed entry of the batch,
      even when other entries are well formed. */
  lemma SeparateErrorNamesEveryBadEntry(tableList: seq<string>)
    requires SeparateSchemaAndTable(tableList).Err?
    ensures forall i | 0 <= i < |tableList| && !WellFormed(tableList[i]) ::
      Contains(RejectionMessage(SeparateSchemaAndTable(tableList).error), tableList[i])
  {
    var rejections := SeparateSchemaAndTable(tableList).error;
    FilterMembers(tableList, WellFormed, false);
    forall i | 0 <= i < |tableList| && !WellFormed(tableList[i])
      ensures Contains(RejectionMessage(rejections), tableList[i])
    {
      var entries := MapSeq(rejections, EntryOf);
      assert tableList[i] in entries;
      var k :| 0 <= k < |entries| && entries[k] == tableList[i];
      assert rejections[k].entry == tableList[i];
    }
  }

  /*
   * Catalog quoting
   */

  /** One catalog round trip: the catalog's quoted schema and table for a relation,
      or the error the query raised. */
  type CatalogLookup = FqnStruct -> Result<FqnStruct, string>

  datatype QuoteError = InvalidNames(rejections: seq<Rejection>) | LookupFailed(cause: string)

  /** One lookup per relation, in order, stopping at the first failing lookup. */
  function QuoteEach(fqns: seq<FqnStruct>, lookup: CatalogLookup): (r: Result<seq<string>, string>)
    ensures r.Ok? <==> forall i | 0 <= i < |fqns| :: lookup(fqns[i]).Ok?
    ensures r.Ok? ==> |r.value| == |fqns|
    ensures r.Ok? ==> forall i | 0 <= i < |fqns| :: r.value[i] == QualifiedName(lookup(fqns[i]).value)
    ensures r.Err? ==> exists i | 0 <= i < |fqns| ::
      && lookup(fqns[i]) == Err(r.error)
      && forall j | 0 <= j < i :: lookup(fqns[j]).Ok?
  {
    if fqns == [] then Ok([])
    else
      assert forall i | 1 <= i < |fqns| :: fqns[i] == fqns[1..][i - 1];
      match lookup(fqns[0])
      case Err(cause) => Err(cause)
      case Ok(quoted) =>
        var rest := QuoteEach(fqns[1..], lookup);
        FirstFailureShifts(fqns, lookup, rest);
        if rest.Ok? then Ok([QualifiedName(quoted)] + rest.value) else rest
  }

  lemma FirstFailureShifts(fqns: seq<FqnStruct>, lookup: CatalogLookup, rest: Result<seq<string>, string>)
    requires fqns != [] && lookup(fqns[0]).Ok?
    requires rest.Err? ==> exists i | 0 <= i < |fqns| - 1 ::
      && lookup(fqns[1..][i]) == Err(rest.error)
      && forall j | 0 <= j < i :: lookup(fqns[1..][j]).Ok?
    ensures rest.Err? ==> exists i | 0 <= i < |fqns| ::
      && lookup(fqns[i]) == Err(rest.error)
      && forall j | 0 <= j < i :: lookup(fqns[j]).Ok?
  {
    if rest.Err? {
      var i :| 0 <= i < |fqns| - 1 && lookup(fqns[1..][i]) == Err(rest.error)
               && forall j | 0 <= j < i :: lookup(fqns[1..][j]).Ok?;
      assert forall j | 1 <= j < i + 1 :: fqns[j] == fqns[1..][j - 1];
      assert lookup(fqns[i + 1]) == Err(rest.error);
    }
  }

  /** The catalog's quoted "schema.table" for each name, in input order: nothing to
      look up for an empty list; a malformed name or a failing lookup aborts. */
  function QuoteTableNames(tableNames: seq<string>, lookup: CatalogLookup): (r: Result<seq<string>, QuoteError>)
    ensures tableNames == [] ==> r == Ok([])
    ensures r.Ok? ==> |r.value| == |tableNames|
    ensures r.Ok? ==> forall i | 0 <= i < |tableNames| ::
      && ParseEntry(tableNames[i]).Ok?
      && lookup(ParseEntry(tableNames[i]).value).Ok?
      && r.value[i] == QualifiedName(lookup(ParseEntry(tableNames[i]).value).value)
    ensures r.Ok? <==> forall i | 0 <= i < |tableNames| ::
      WellFormed(tableNames[i]) && lookup(ParseEntry(tableNames[i]).value).Ok?
    ensures (exists i | 0 <= i < |tableNames| :: !WellFormed(tableNames[i])) <==> r.Err? && r.error.InvalidNames?
    ensures r.Err? && r.error.InvalidNames? ==>
      MapSeq(r.error.rejections, EntryOf) == Filter(tableNames, WellFormed, false)
    ensures r.Err? && r.error.LookupFailed? ==>
      && (forall i | 0 <= i < |tableNames| :: WellFormed(tableNames[i]))
      && exists i | 0 <= i < |tableNames| && WellFormed(tableNames[i]) ::
        && lookup(ParseEntry(tableNames[i]).value) == Err(r.error.cause)
        && forall j | 0 <= j < i && WellFormed(tableNames[j]) :: lookup(ParseEntry(tableNames[j]).value).Ok?
  {
    if tableNames == [] then Ok([])
    else
      match SeparateSchemaAndTable(tableNames)
      case Err(rejections) => Err(InvalidNames(rejections))
      case Ok(fqns) =>
        LookupsOfParsedNames(tableNames, fqns, lookup);
        match QuoteEach(fqns, lookup)
        case Ok(quoted) => Ok(quoted)
        case Err(cause) => Err(LookupFailed(cause))
  }

  /** The lookups of the parsed names, restated over the raw names they came from. */
  lemma LookupsOfParsedNames(tableNames: seq<string>, fqns: seq<FqnStruct>, lookup: CatalogLookup)
    requires |fqns| == |tableNames|
    requires forall i | 0 <= i < |tableNames| :: ParseEntry(tableNames[i]) == Ok(fqns[i])
    ensures forall i | 0 <= i < |tableNames| :: WellFormed(tableNames[i])
    ensures QuoteEach(fqns, lookup).Ok? <==> forall i | 0 <= i < |tableNames| ::
      WellFormed(tableNames[i]) && lookup(ParseEntry(tableNames[i]).value).Ok?
    ensures QuoteEach(fqns, lookup).Err? ==>
      exists i | 0 <= i < |tableNames| && WellFormed(tableNames[i]) ::
        && lookup(ParseEntry(tableNames[i]).value) == Err(QuoteEach(fqns, lookup).error)
        && forall j | 0 <= j < i && WellFormed(tableNames[j]) :: lookup(ParseEntry(tableNames[j]).value).Ok?
  {
    var q := QuoteEach(fqns, lookup);
    if q.Err? {
      var i :| 0 <= i < |fqns| && lookup(fqns[i]) == Err(q.error) && forall j | 0 <= j < i :: lookup(fqns[j]).Ok?;
      assert ParseEntry(tableNames[i]).value == fqns[i];
      assert forall j | 0 <= j < i :: ParseEntry(tableNames[j]).value == fqns[j];
    }
  }

  /** When the catalog hands every name back unchanged, quoting returns the input. */
  lemma QuoteTableNamesIdentity(tableNames: seq<string>, lookup: CatalogLookup)
    requires forall i | 0 <= i < |tableNames| :: WellFormed(tableNames[i])
    requires forall f :: lookup(f) == Ok(f)
    ensures QuoteTableNames(tableNames, lookup) == Ok(tableNames)
  {
    var r := QuoteTableNames(tableNames, lookup);
    if tableNames != [] {
      var fqns := SeparateSchemaAndTable(tableNames).value;
      assert QuoteEach(fqns, lookup).Ok?;
      assert r.value == tableNames;
    }
  }

  /*
   * Included tables
   */

  /** The options that name the relations to back up. */
  datatype Options = Options(includedRelations: seq<string>)

  /** Builds the options from the repeated include-relation flag values followed by
      the lines of the include-relation file; any malformed entry is an error that
      names it. */
  function NewOptions(flagRelations: seq<string>, fileRelations: seq<string>): (r: Result<Options, string>)
    ensures r.Ok? <==> forall i | 0 <= i < |flagRelations + fileRelations| :: WellFormed((flagRelations + fileRelations)[i])
    ensures r.Ok? ==> GetIncludedTables(r.value) == flagRelations + fileRelations
    ensures r.Err? ==> forall i | 0 <= i < |flagRelations + fileRelations| && !WellFormed((flagRelations + fileRelations)[i]) ::
      Contains(r.error, (flagRelations + fileRelations)[i])
  {
    var included := flagRelations + fileRelations;
    match ValidateCharacters(included)
    case Fail(msg) => Err(msg)
    case Pass => Ok(Options(included))
  }

  function GetIncludedTables(o: Options): seq<string>
  {
    o.includedRelations
  }

  /*
   * Cases from the option tests
   *
   * Each case takes its literal entries as parameters fixed by `requires`, instead
   * of writing them in the lemma's statement: with the literals inlined, the
   * verifier unfolds the recursive definitions over every character and runs out
   * of resources.
   */

  /** A batch whose entries each split splits into those names, in order. */
  lemma SeparateAllParsed(tableList: seq<string>, expected: seq<FqnStruct>)
    requires |tableList| == |expected|
    requires forall i | 0 <= i < |tableList| :: ParseEntry(tableList[i]) == Ok(expected[i])
    ensures SeparateSchemaAndTable(tableList) == Ok(expected)
  {
    var r := SeparateSchemaAndTable(tableList);
    assert r.Ok?;
    assert forall i | 0 <= i < |tableList| :: r.value[i] == expected[i];
    assert r.value == expected;
  }

  lemma ParsesTo(entry: string, f: FqnStruct)
    requires IsNamePart(f.schemaName) && IsNamePart(f.tableName) && entry == QualifiedName(f)
    ensures ParseEntry(entry) == Ok(f)
  {
    ParseQualifiedName(f);
  }

  lemma SplitsMixedCaseAndPunctuation(tableList: seq<string>)
    requires tableList == ["foo.Bar", "FOO.Bar", "FO!@#.BAR"]
    ensures SeparateSchemaAndTable(tableList)
         == Ok([FqnStruct("foo", "Bar"), FqnStruct("FOO", "Bar"), FqnStruct("FO!@#", "BAR")])
  {
    var expected := [FqnStruct("foo", "Bar"), FqnStruct("FOO", "Bar"), FqnStruct("FO!@#", "BAR")];
    forall i | 0 <= i < 3 ensures ParseEntry(tableList[i]) == Ok(expected[i]) {
      assert tableList[i] == QualifiedName(expected[i]);
      ParsesTo(tableList[i], expected[i]);
    }
    SeparateAllParsed(tableList, expected);
  }

  lemma RejectsEntryWithoutDot(entry: string)
    requires entry == "foobar"
    ensures ParseEntry(entry) == Err(MissingDot)
  {
  }

  lemma RejectsEmptyTableName(entry: string)
    requires entry == "foo."
    ensures ParseEntry(entry) == Err(EmptyTableName)
  {
    assert entry == "foo" + "." + "";
    ParseEntryShape(entry, "foo", "");
    assert SplitOnDot(entry) == ["foo", ""] by {
      JoinThenSplit(["foo", ""]);
      assert ["foo", ""][1..] == [""];
    }
  }

  lemma RejectsEmptySchemaName(entry: string)
    requires entry == ".bar"
    ensures ParseEntry(entry) == Err(EmptySchemaName)
  {
    assert entry == "" + "." + "bar";
    ParseEntryShape(entry, "", "bar");
    DotCountAppend("", "." + "bar");
    DotCountAppend(".", "bar");
    DotCountZero("bar");
  }

  lemma RejectsTwoDots(entry: string)
    requires entry == "foobar.baz.bam"
    ensures ParseEntry(entry) == Err(ExtraDots)
  {
    assert entry == "foobar" + "." + "baz" + "." + "bam";
    DotCountAppend("foobar" + "." + "baz" + ".", "bam");
    DotCountAppend("foobar" + "." + "baz", ".");
    DotCountAppend("foobar" + ".", "baz");
    DotCountAppend("foobar", ".");
  }

  lemma OneBadEntryFailsTheBatch(tableList: seq<string>)
    requires tableList == ["foobar", "foo.bar"]
    ensures SeparateSchemaAndTable(tableList).Err?
    ensures Contains(RejectionMessage(SeparateSchemaAndTable(tableList).error), "foobar")
  {
    RejectsEntryWithoutDot(tableList[0]);
    SeparateErrorNamesEveryBadEntry(tableList);
  }

  /** Entries that all name relations become the included tables, flags first. */
  lemma NewOptionsKeepsOrder(flagRelations: seq<string>, fileRelations: seq<string>)
    requires forall i | 0 <= i < |flagRelations| :: WellFormed(flagRelations[i])
    requires forall i | 0 <= i < |fileRelations| :: WellFormed(fileRelations[i])
    ensures NewOptions(flagRelations, fileRelations).Ok?
    ensures GetIncludedTables(NewOptions(flagRelations, fileRelations).value) == flagRelations + fileRelations
  {
    var all := flagRelations + fileRelations;
    forall i | 0 <= i < |all| ensures WellFormed(all[i]) {
      if i >= |flagRelations| {
        assert all[i] == fileRelations[i - |flagRelations|];
      }
    }
  }

  lemma SpecialCharactersSpelling(entry: string)
    requires entry == "foo '~#$%^&*()_-+[]{}><\\|;:/?!\\t\\n.bar"
    ensures entry == QualifiedName(FqnStruct("foo '~#$%^&*()_-+[]{}><\\|;:/?!\\t\\n", "bar"))
  {
  }

  lemma SpecialCharactersWellFormed(entry: string)
    requires entry == "foo '~#$%^&*()_-+[]{}><\\|;:/?!\\t\\n.bar"
    ensures WellFormed(entry)
  {
    SpecialCharactersSpelling(entry);
    ParsesTo(entry, FqnStruct("foo '~#$%^&*()_-+[]{}><\\|;:/?!\\t\\n", "bar"));
  }

  lemma KeepsSpecialCharacters(entry: string)
    requires entry == "foo '~#$%^&*()_-+[]{}><\\|;:/?!\\t\\n.bar"
    ensures NewOptions([entry], []).Ok?
    ensures GetIncludedTables(NewOptions([entry], []).value) == [entry]
  {
    SpecialCharactersWellFormed(entry);
    NewOptionsKeepsOrder([entry], []);
    assert [entry] + [] == [entry];
  }

  /** An entry spelled from two usable name parts is well formed. */
  lemma SpelledNameWellFormed(entry: string, schema: string, table: string)
    requires IsNamePart(schema) && IsNamePart(table) && entry == schema + "." + table
    ensures WellFormed(entry)
  {
    ParsesTo(entry, FqnStruct(schema, table));
  }

  lemma AcceptsMixedCaseAndPunctuation(a: string, b: string, c: string, d: string)
    requires a == "foo.bar" && b == "foo.Bar" && c == "FOO.Bar" && d == "FO!@#.BAR"
    ensures ValidateCharacters([a, b, c, d]) == Pass
  {
    SpelledNameWellFormed(a, "foo", "bar");
    SpelledNameWellFormed(b, "foo", "Bar");
    SpelledNameWellFormed(c, "FOO", "Bar");
    SpelledNameWellFormed(d, "FO!@#", "BAR");
    var tableList := [a, b, c, d];
    forall i | 0 <= i < |tableList| ensures WellFormed(tableList[i]) {
      assert tableList[i] in {a, b, c, d};
    }
  }

  /** A one-entry list fails validation, and the error names the entry, whatever
      its defect. */
  lemma ValidateNamesLoneBadEntry(entry: string, defect: Defect)
    requires ParseEntry(entry) == Err(defect)
    ensures ValidateCharacters([entry]).Fail?
    ensures Contains(ValidateCharacters([entry]).error, entry)
  {
    assert [entry][0] == entry;
  }

  lemma ValidateRejectsEntryWithoutDot(entry: string)
    requires entry == "foobar"
    ensures ValidateCharacters([entry]).Fail?
  {
    RejectsEntryWithoutDot(entry);
    ValidateNamesLoneBadEntry(entry, MissingDot);
  }

  lemma ValidateNamesBadEntryAmongGood(tableList: seq<string>)
    requires tableList == ["foobar", "foo.bar"]
    ensures ValidateCharacters(tableList).Fail?
    ensures Contains(ValidateCharacters(tableList).error, "foobar")
  {
    RejectsEntryWithoutDot(tableList[0]);
  }

  lemma ValidateNamesMissingPart(schemaOnly: string, tableOnly: string)
    requires schemaOnly == "foo." && tableOnly == ".bar"
    ensures ValidateCharacters([schemaOnly]).Fail? && Contains(ValidateCharacters([schemaOnly]).error, "foo.")
    ensures ValidateCharacters([tableOnly]).Fail? && Contains(ValidateCharacters([tableOnly]).error, ".bar")
  {
    RejectsEmptyTableName(schemaOnly);
    ValidateNamesLoneBadEntry(schemaOnly, EmptyTableName);
    RejectsEmptySchemaName(tableOnly);
    ValidateNamesLoneBadEntry(tableOnly, EmptySchemaName);
  }

  /** Splitting a one-entry list fails with an error naming the entry, whatever its defect. */
  lemma SeparateNamesLoneBadEntry(entry: string, defect: Defect)
    requires ParseEntry(entry) == Err(defect)
    ensures SeparateSchemaAndTable([entry]).Err?
    ensures Contains(RejectionMessage(SeparateSchemaAndTable([entry]).error), entry)
  {
    assert [entry][0] == entry;
    SeparateErrorNamesEveryBadEntry([entry]);
  }

  lemma SeparateNamesEntryWithoutTable(entry: string)
    requires entry == "foo."
    ensures Contains(RejectionMessage(SeparateSchemaAndTable([entry]).error), "foo.")
  {
    RejectsEmptyTableName(entry);
    SeparateNamesLoneBadEntry(entry, EmptyTableName);
  }

  lemma SeparateNamesEntryWithoutSchema(entry: string)
    requires entry == ".bar"
    ensures Contains(RejectionMessage(SeparateSchemaAndTable([entry]).error), ".bar")
  {
    RejectsEmptySchemaName(entry);
    SeparateNamesLoneBadEntry(entry, EmptySchemaName);
  }

  lemma SeparateNamesEntryWithoutDot(entry: string)
    requires entry == "foobar"
    ensures Contains(RejectionMessage(SeparateSchemaAndTable([entry]).error), "foobar")
  {
    RejectsEntryWithoutDot(entry);
    SeparateNamesLoneBadEntry(entry, MissingDot);
  }

  lemma SeparateNamesEntryWithTwoDots(entry: string)
    requires entry == "foobar.baz.bam"
    ensures SeparateSchemaAndTable([entry]).Err?
    ensures Contains(RejectionMessage(SeparateSchemaAndTable([entry]).error), "foobar.baz.bam")
  {
    RejectsTwoDots(entry);
    SeparateNamesLoneBadEntry(entry, ExtraDots);
  }

  lemma NoIncludedTablesByDefault()
    ensures NewOptions([], []) == Ok(Options([]))
    ensures GetIncludedTables(NewOptions([], []).value) == []
  {
  }

  lemma IncludedFromFlags(first: string, second: string)
    requires first == "foo.bar" && second == "bar.baz"
    ensures NewOptions([first], []).Ok?
    ensures GetIncludedTables(NewOptions([first], []).value) == ["foo.bar"]
    ensures NewOptions([first, second], []).Ok?
    ensures GetIncludedTables(NewOptions([first, second], []).value) == ["foo.bar", "bar.baz"]
  {
    SpelledNameWellFormed(first, "foo", "bar");
    SpelledNameWellFormed(second, "bar", "baz");
    NewOptionsKeepsOrder([first], []);
    NewOptionsKeepsOrder([first, second], []);
    assert [first] + [] == [first];
    assert [first, second] + [] == [first, second];
  }

  lemma IncludedFromFile(first: string, second: string)
    requires first == "myschema.mytable" && second == "myschema.mytable2"
    ensures NewOptions([], [first, second]).Ok?
    ensures GetIncludedTables(NewOptions([], [first, second]).value) == [first, second]
  {
    SpelledNameWellFormed(first, "myschema", "mytable");
    SpelledNameWellFormed(second, "myschema", "mytable2");
    NewOptionsKeepsOrder([], [first, second]);
    assert [] + [first, second] == [first, second];
  }

  lemma RejectsInvalidInclusion(entry: string)
    requires entry == "foo"
    ensures NewOptions([entry], []).Err?
  {
    assert '.' !in entry;
    DotCountZero(entry);
    assert ([entry] + [])[0] == entry;
  }

  /** Three names that the catalog hands back unchanged come back in order. */
  lemma QuotesThreeNames(tableNames: seq<string>, lookup: CatalogLookup)
    requires tableNames == ["public.one", "public.two", "public.three"]
    requires forall f :: lookup(f) == Ok(f)
    ensures QuoteTableNames(tableNames, lookup) == Ok(tableNames)
  {
    SpelledNameWellFormed(tableNames[0], "public", "one");
    SpelledNameWellFormed(tableNames[1], "public", "two");
    SpelledNameWellFormed(tableNames[2], "public", "three");
    assert forall i | 0 <= i < |tableNames| :: WellFormed(tableNames[i]) by {
      forall i | 0 <= i < |tableNames| ensures WellFormed(tableNames[i]) {
        assert i == 0 || i == 1 || i == 2;
      }
    }
    QuoteTableNamesIdentity(tableNames, lookup);
  }
}
