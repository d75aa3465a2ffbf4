/** Pre-data statements for constraints, schemas and procedural languages, in the
    order a restore can replay them (backup/predata_general.go). */
module PredataGeneral {
  import opened Outcomes
  import opened Sequences
  import opened Catalog
  import opened Statements

  /*
   * Constraints
   */

  /** Foreign keys reference a primary or unique key, so they must be added last. */
  predicate IsForeignKey(c: QueryConstraint) { c.conType == "f" }

  /** The constraints reordered so that every foreign key follows every other constraint. */
  function OrderConstraints(constraints: seq<QueryConstraint>): (ordered: seq<QueryConstraint>)
    ensures |ordered| == |constraints|
    ensures multiset(ordered) == multiset(constraints)
    ensures forall i, j | 0 <= i < j < |ordered| :: IsForeignKey(ordered[i]) ==> IsForeignKey(ordered[j])
    ensures Filter(ordered, IsForeignKey, false) == Filter(constraints, IsForeignKey, false)
    ensures Filter(ordered, IsForeignKey, true) == Filter(constraints, IsForeignKey, true)
  {
    Partition(constraints, IsForeignKey)
  }

  /** Any reordering that puts foreign keys last and keeps both groups in input
      order is the one the emitter produces. */
  lemma OrderConstraintsUnique(constraints: seq<QueryConstraint>, ordered: seq<QueryConstraint>)
    requires forall i, j | 0 <= i < j < |ordered| :: IsForeignKey(ordered[i]) ==> IsForeignKey(ordered[j])
    requires Filter(ordered, IsForeignKey, false) == Filter(constraints, IsForeignKey, false)
    requires Filter(ordered, IsForeignKey, true) == Filter(constraints, IsForeignKey, true)
    ensures ordered == OrderConstraints(constraints)
  {
    PartitionUnique(constraints, ordered, IsForeignKey);
  }

  /** The ADD CONSTRAINT statement of one constraint and the metadata block addressed
      by its quoted name and owning table. */
  function ConstraintBlock(c: QueryConstraint, conMetadata: MetadataMap, env: Collaborators): seq<Stmt>
  {
    var conName := env.quoteIdent(c.conName);
    [ AddConstraint(c.owningTable, conName, c.conDef),
      Metadata(MetadataOf(conMetadata, c.oid), conName, "CONSTRAINT", Some(c.owningTable)) ]
  }

  function ConstraintBlocks(conMetadata: MetadataMap, env: Collaborators): QueryConstraint -> seq<Stmt>
  {
    c => ConstraintBlock(c, conMetadata, env)
  }

  function PrintConstraintStatements(constraints: seq<QueryConstraint>, conMetadata: MetadataMap, env: Collaborators)
    : (out: seq<Stmt>)
    ensures |out| == 2 * |constraints|
    ensures forall i | 0 <= i < |constraints| ::
      var c := OrderConstraints(constraints)[i];
      && out[2 * i] == AddConstraint(c.owningTable, env.quoteIdent(c.conName), c.conDef)
      && out[2 * i + 1] == Metadata(MetadataOf(conMetadata, c.oid), env.quoteIdent(c.conName), "CONSTRAINT", Some(c.owningTable))
    ensures Count(out, IsAddConstraint) == |constraints|
    ensures Count(out, IsMetadata) == |constraints|
  {
    var ordered := OrderConstraints(constraints);
    var blocks := ConstraintBlocks(conMetadata, env);
    FlatMapPairs(ordered, blocks);
    ConstraintCounts(ordered, conMetadata, env);
    FlatMap(ordered, blocks)
  }

  lemma ConstraintCounts(ordered: seq<QueryConstraint>, conMetadata: MetadataMap, env: Collaborators)
    ensures Count(FlatMap(ordered, ConstraintBlocks(conMetadata, env)), IsAddConstraint) == |ordered|
    ensures Count(FlatMap(ordered, ConstraintBlocks(conMetadata, env)), IsMetadata) == |ordered|
  {
    var blocks := ConstraintBlocks(conMetadata, env);
    var one := (c: QueryConstraint) => 1;
    forall c | c in ordered
      ensures Count(blocks(c), IsAddConstraint) == 1 && Count(blocks(c), IsMetadata) == 1
    {
      var b := blocks(c);
      assert b == [b[0]] + [b[1]];
      CountAppend([b[0]], [b[1]], IsAddConstraint);
      CountAppend([b[0]], [b[1]], IsMetadata);
      CountSingleton(b[0], IsAddConstraint);
      CountSingleton(b[1], IsAddConstraint);
      CountSingleton(b[0], IsMetadata);
      CountSingleton(b[1], IsMetadata);
    }
    CountFlatMap(ordered, blocks, IsAddConstraint, one);
    CountFlatMap(ordered, blocks, IsMetadata, one);
    SumOfOnes(ordered, one);
  }

  /** The constraint list [foreign key, primary key] is emitted primary key first. */
  lemma PrimaryKeyBeforeForeignKey(fk: QueryConstraint, pk: QueryConstraint, conMetadata: MetadataMap, env: Collaborators)
    requires fk.conType == "f" && pk.conType == "p"
    ensures PrintConstraintStatements([fk, pk], conMetadata, env)[0] == AddConstraint(pk.owningTable, env.quoteIdent(pk.conName), pk.conDef)
    ensures PrintConstraintStatements([fk, pk], conMetadata, env)[2] == AddConstraint(fk.owningTable, env.quoteIdent(fk.conName), fk.conDef)
  {
    assert [fk, pk] == [fk] + [pk] && [pk, fk] == [pk] + [fk];
    FilterCons(fk, [pk], IsForeignKey, false);
    FilterCons(fk, [pk], IsForeignKey, true);
    FilterCons(pk, [fk], IsForeignKey, false);
    FilterCons(pk, [fk], IsForeignKey, true);
    FilterCons(pk, [], IsForeignKey, false);
    FilterCons(pk, [], IsForeignKey, true);
    FilterCons(fk, [], IsForeignKey, false);
    FilterCons(fk, [], IsForeignKey, true);
    assert [pk] + [] == [pk] && [fk] + [] == [fk];
    OrderConstraintsUnique([fk, pk], [pk, fk]);
  }

  /*
   * Schemas
   */

  /** Every schema but the pre-existing default schema "public" needs a CREATE SCHEMA. */
  predicate NeedsCreate(s: Schema) { s.name != "public" }

  /** A line break, CREATE SCHEMA unless the schema is "public", then the schema's metadata block. */
  function SchemaBlock(s: Schema, schemaMetadata: MetadataMap, env: Collaborators): (block: seq<Stmt>)
    ensures |block| >= 2 && block[0] == Newline
    ensures block[|block| - 1] == Metadata(MetadataOf(schemaMetadata, s.oid), env.schemaToString(s), "SCHEMA", None)
    ensures s.name == "public" ==> |block| == 2
    ensures s.name != "public" ==> |block| == 3 && block[1] == CreateSchema(env.schemaToString(s))
    ensures Filter(block, IsCreateSchema, true) == (if s.name != "public" then [CreateSchema(env.schemaToString(s))] else [])
    ensures Count(block, IsMetadata) == 1
  {
    var create := if s.name != "public" then [CreateSchema(env.schemaToString(s))] else [];
    var metadata := Metadata(MetadataOf(schemaMetadata, s.oid), env.schemaToString(s), "SCHEMA", None);
    SchemaBlockParts(create, metadata);
    [Newline] + create + [metadata]
  }

  lemma SchemaBlockParts(create: seq<Stmt>, metadata: Stmt)
    requires metadata.Metadata?
    requires create == [] || (|create| == 1 && create[0].CreateSchema?)
    ensures Filter([Newline] + create + [metadata], IsCreateSchema, true) == create
    ensures Count([Newline] + create + [metadata], IsMetadata) == 1
  {
    FilterAppend([Newline] + create, [metadata], IsCreateSchema, true);
    FilterAppend([Newline], create, IsCreateSchema, true);
    FilterAppend([Newline] + create, [metadata], IsMetadata, true);
    FilterAppend([Newline], create, IsMetadata, true);
    CountSingleton(Newline, IsCreateSchema);
    CountSingleton(Newline, IsMetadata);
    CountSingleton(metadata, IsCreateSchema);
    CountSingleton(metadata, IsMetadata);
    FilterAll(create, IsCreateSchema, true);
    FilterNone(create, IsMetadata, true);
  }

  function SchemaBlocks(schemaMetadata: MetadataMap, env: Collaborators): Schema -> seq<Stmt>
  {
    s => SchemaBlock(s, schemaMetadata, env)
  }

  function PrintCreateSchemaStatements(schemas: seq<Schema>, schemaMetadata: MetadataMap, env: Collaborators)
    : (out: seq<Stmt>)
    ensures Count(out, IsCreateSchema) == Count(schemas, NeedsCreate)
    ensures Count(out, IsMetadata) == |schemas|
  {
    var blocks := SchemaBlocks(schemaMetadata, env);
    var created := (s: Schema) => if NeedsCreate(s) then 1 else 0;
    var one := (s: Schema) => 1;
    CountFlatMap(schemas, blocks, IsCreateSchema, created);
    SumIndicator(schemas, created, NeedsCreate);
    CountFlatMap(schemas, blocks, IsMetadata, one);
    SumOfOnes(schemas, one);
    FlatMap(schemas, blocks)
  }

  /** The schema statements are the schemas' own blocks, in input order: emitting two
      lists one after the other is emitting their concatenation, and a single schema
      gives exactly its block. */
  lemma SchemaStatementsCompose(a: seq<Schema>, b: seq<Schema>, s: Schema, schemaMetadata: MetadataMap, env: Collaborators)
    ensures PrintCreateSchemaStatements(a + b, schemaMetadata, env)
         == PrintCreateSchemaStatements(a, schemaMetadata, env) + PrintCreateSchemaStatements(b, schemaMetadata, env)
    ensures PrintCreateSchemaStatements([s], schemaMetadata, env) == SchemaBlock(s, schemaMetadata, env)
  {
    var blocks := SchemaBlocks(schemaMetadata, env);
    FlatMapAppend(a, b, blocks);
    FlatMapSingleton(s, blocks);
  }

  function SchemaCreateOf(env: Collaborators): Schema -> Stmt
  {
    s => CreateSchema(env.schemaToString(s))
  }

  /** The CREATE SCHEMA statements are exactly those of the schemas other than
      "public", in input order. */
  lemma {:induction false} SchemaCreatesInOrder(schemas: seq<Schema>, schemaMetadata: MetadataMap, env: Collaborators)
    ensures Filter(PrintCreateSchemaStatements(schemas, schemaMetadata, env), IsCreateSchema, true)
         == MapSeq(Filter(schemas, NeedsCreate, true), SchemaCreateOf(env))
  {
    if schemas != [] {
      var blocks := SchemaBlocks(schemaMetadata, env);
      var s := schemas[0];
      SchemaCreatesInOrder(schemas[1..], schemaMetadata, env);
      FilterAppend(blocks(s), FlatMap(schemas[1..], blocks), IsCreateSchema, true);
      MapSeqAppend(Filter([s], NeedsCreate, true), Filter(schemas[1..], NeedsCreate, true), SchemaCreateOf(env));
      assert Filter([s], NeedsCreate, true) == if NeedsCreate(s) then [s] else [];
    }
  }

  /*
   * Procedural languages
   */

  predicate IsNonZero(oid: Oid) { oid != 0 }

  /** The handler, inline and validator functions a language names, in that order,
      leaving out the absent (zero) ones. */
  function FunctionRefs(l: QueryProceduralLanguage): seq<Oid>
  {
    Filter([l.handler, l.inline, l.validator], IsNonZero, true)
  }

  lemma FunctionRefsSpelledOut(l: QueryProceduralLanguage)
    ensures FunctionRefs(l) == (if l.handler != 0 then [l.handler] else [])
                             + ((if l.inline != 0 then [l.inline] else [])
                             + (if l.validator != 0 then [l.validator] else []))
  {
    FilterCons(l.handler, [l.inline, l.validator], IsNonZero, true);
    FilterCons(l.inline, [l.validator], IsNonZero, true);
    FilterCons(l.validator, [], IsNonZero, true);
    assert [l.handler, l.inline, l.validator] == [l.handler] + [l.inline, l.validator];
    assert [l.inline, l.validator] == [l.inline] + [l.validator];
    assert [l.validator] == [l.validator] + [];
  }

  function RefCount(l: QueryProceduralLanguage): nat
  {
    |FunctionRefs(l)|
  }

  /** ALTER FUNCTION ... OWNER TO for the function `oid`, if there is one. */
  function OwnerStatement(oid: Oid, funcInfoMap: map<Oid, FunctionInfo>, quotedOwner: string): seq<Stmt>
  {
    if oid != 0 then
      var info := FunctionInfoOf(funcInfoMap, oid);
      [AlterFunctionOwner(info.qualifiedName, info.arguments, quotedOwner)]
    else []
  }

  function OwnerStatementOf(funcInfoMap: map<Oid, FunctionInfo>, quotedOwner: string): Oid -> Stmt
  {
    (oid: Oid) =>
      var info := FunctionInfoOf(funcInfoMap, oid);
      AlterFunctionOwner(info.qualifiedName, info.arguments, quotedOwner)
  }

  /** One optional owner change is the owner-change image of the zero-or-one oid. */
  lemma OwnerStatementIsImage(oid: Oid, funcInfoMap: map<Oid, FunctionInfo>, quotedOwner: string)
    ensures OwnerStatement(oid, funcInfoMap, quotedOwner)
         == MapSeq(if oid != 0 then [oid] else [], OwnerStatementOf(funcInfoMap, quotedOwner))
  {
  }

  lemma OwnerStatementsFollowRefs(l: QueryProceduralLanguage, funcInfoMap: map<Oid, FunctionInfo>, quotedOwner: string)
    ensures OwnerStatement(l.handler, funcInfoMap, quotedOwner)
          + OwnerStatement(l.inline, funcInfoMap, quotedOwner)
          + OwnerStatement(l.validator, funcInfoMap, quotedOwner)
         == MapSeq(FunctionRefs(l), OwnerStatementOf(funcInfoMap, quotedOwner))
  {
    var f := OwnerStatementOf(funcInfoMap, quotedOwner);
    var h := if l.handler != 0 then [l.handler] else [];
    var i := if l.inline != 0 then [l.inline] else [];
    var v := if l.validator != 0 then [l.validator] else [];
    FunctionRefsSpelledOut(l);
    MapSeqAppend(h, i + v, f);
    MapSeqAppend(i, v, f);
    OwnerStatementIsImage(l.handler, funcInfoMap, quotedOwner);
    OwnerStatementIsImage(l.inline, funcInfoMap, quotedOwner);
    OwnerStatementIsImage(l.validator, funcInfoMap, quotedOwner);
    AppendAssoc(MapSeq(h, f), MapSeq(i, f), MapSeq(v, f));
  }

  /** CREATE [TRUSTED] PROCEDURAL LANGUAGE, an owner change for each function the
      language names, the language's metadata block, then a line break. */
  function LanguageBlock(l: QueryProceduralLanguage, funcInfoMap: map<Oid, FunctionInfo>,
                         procLangMetadata: MetadataMap, env: Collaborators): (block: seq<Stmt>)
    ensures |block| == RefCount(l) + 3
    ensures block[0] == CreateLanguage(l.plTrusted, env.quoteIdent(l.name))
    ensures forall k | 0 <= k < RefCount(l) ::
      var info := FunctionInfoOf(funcInfoMap, FunctionRefs(l)[k]);
      block[k + 1] == AlterFunctionOwner(info.qualifiedName, info.arguments, env.quoteIdent(l.owner))
    ensures block[|block| - 2] == Metadata(MetadataOf(procLangMetadata, l.oid), env.quoteIdent(l.name), "LANGUAGE", None)
    ensures block[|block| - 1] == Newline
  {
    var quotedOwner := env.quoteIdent(l.owner);
    var quotedLanguage := env.quoteIdent(l.name);
    var owners := OwnerStatement(l.handler, funcInfoMap, quotedOwner)
                + OwnerStatement(l.inline, funcInfoMap, quotedOwner)
                + OwnerStatement(l.validator, funcInfoMap, quotedOwner);
    var create := CreateLanguage(l.plTrusted, quotedLanguage);
    var metadata := Metadata(MetadataOf(procLangMetadata, l.oid), quotedLanguage, "LANGUAGE", None);
    OwnerStatementsFollowRefs(l, funcInfoMap, quotedOwner);
    IndexAround(create, owners, metadata, Newline);
    [create] + owners + [metadata, Newline]
  }

  /** Per language: one CREATE, one owner change per named function, one metadata block. */
  lemma LanguageBlockCounts(l: QueryProceduralLanguage, funcInfoMap: map<Oid, FunctionInfo>,
                            procLangMetadata: MetadataMap, env: Collaborators)
    ensures Count(LanguageBlock(l, funcInfoMap, procLangMetadata, env), IsCreateLanguage) == 1
    ensures Count(LanguageBlock(l, funcInfoMap, procLangMetadata, env), IsAlterFunctionOwner) == RefCount(l)
    ensures Count(LanguageBlock(l, funcInfoMap, procLangMetadata, env), IsMetadata) == 1
  {
    var quotedOwner := env.quoteIdent(l.owner);
    var quotedLanguage := env.quoteIdent(l.name);
    var create := CreateLanguage(l.plTrusted, quotedLanguage);
    var metadata := Metadata(MetadataOf(procLangMetadata, l.oid), quotedLanguage, "LANGUAGE", None);
    var owners := MapSeq(FunctionRefs(l), OwnerStatementOf(funcInfoMap, quotedOwner));
    OwnerStatementsFollowRefs(l, funcInfoMap, quotedOwner);
    assert LanguageBlock(l, funcInfoMap, procLangMetadata, env) == [create] + owners + [metadata, Newline];
    assert forall s :: s in owners ==> s.AlterFunctionOwner?;
    FilterAll(owners, IsAlterFunctionOwner, true);
    FilterNone(owners, IsCreateLanguage, true);
    FilterNone(owners, IsMetadata, true);
    CountAround(create, owners, metadata, Newline, IsCreateLanguage);
    CountAround(create, owners, metadata, Newline, IsAlterFunctionOwner);
    CountAround(create, owners, metadata, Newline, IsMetadata);
  }

  function LanguageBlocks(funcInfoMap: map<Oid, FunctionInfo>, procLangMetadata: MetadataMap, env: Collaborators)
    : QueryProceduralLanguage -> seq<Stmt>
  {
    l => LanguageBlock(l, funcInfoMap, procLangMetadata, env)
  }

  function PrintCreateLanguageStatements(procLangs: seq<QueryProceduralLanguage>, funcInfoMap: map<Oid, FunctionInfo>,
                                         procLangMetadata: MetadataMap, env: Collaborators): (out: seq<Stmt>)
    ensures Count(out, IsCreateLanguage) == |procLangs|
    ensures Count(out, IsAlterFunctionOwner) == SumOver(procLangs, RefCount)
    ensures Count(out, IsMetadata) == |procLangs|
  {
    var blocks := LanguageBlocks(funcInfoMap, procLangMetadata, env);
    var one := (l: QueryProceduralLanguage) => 1;
    forall l | l in procLangs
      ensures Count(blocks(l), IsCreateLanguage) == 1
      ensures Count(blocks(l), IsAlterFunctionOwner) == RefCount(l)
      ensures Count(blocks(l), IsMetadata) == 1
    {
      LanguageBlockCounts(l, funcInfoMap, procLangMetadata, env);
    }
    CountFlatMap(procLangs, blocks, IsCreateLanguage, one);
    CountFlatMap(procLangs, blocks, IsAlterFunctionOwner, RefCount);
    CountFlatMap(procLangs, blocks, IsMetadata, one);
    SumOfOnes(procLangs, one);
    FlatMap(procLangs, blocks)
  }

  /** The CREATE LANGUAGE statement of one language. */
  function LanguageCreateOf(env: Collaborators): QueryProceduralLanguage -> Stmt
  {
    (l: QueryProceduralLanguage) => CreateLanguage(l.plTrusted, env.quoteIdent(l.name))
  }

  /** A language block holds exactly one CREATE LANGUAGE, its first statement. */
  lemma LanguageBlockCreate(l: QueryProceduralLanguage, funcInfoMap: map<Oid, FunctionInfo>,
                            procLangMetadata: MetadataMap, env: Collaborators)
    ensures Filter(LanguageBlock(l, funcInfoMap, procLangMetadata, env), IsCreateLanguage, true)
         == [CreateLanguage(l.plTrusted, env.quoteIdent(l.name))]
  {
    var quotedOwner := env.quoteIdent(l.owner);
    var quotedLanguage := env.quoteIdent(l.name);
    var create := CreateLanguage(l.plTrusted, quotedLanguage);
    var metadata := Metadata(MetadataOf(procLangMetadata, l.oid), quotedLanguage, "LANGUAGE", None);
    var owners := MapSeq(FunctionRefs(l), OwnerStatementOf(funcInfoMap, quotedOwner));
    OwnerStatementsFollowRefs(l, funcInfoMap, quotedOwner);
    var rest := owners + [metadata, Newline];
    assert LanguageBlock(l, funcInfoMap, procLangMetadata, env) == [create] + rest;
    assert forall s :: s in owners ==> s.AlterFunctionOwner?;
    assert forall s :: s in rest ==> !IsCreateLanguage(s);
    FilterNone(rest, IsCreateLanguage, true);
    FilterCons(create, rest, IsCreateLanguage, true);
  }

  /** The CREATE LANGUAGE statements come one per language, in input order. */
  lemma {:induction false} LanguageCreatesInOrder(procLangs: seq<QueryProceduralLanguage>, funcInfoMap: map<Oid, FunctionInfo>,
                                                  procLangMetadata: MetadataMap, env: Collaborators)
    ensures Filter(PrintCreateLanguageStatements(procLangs, funcInfoMap, procLangMetadata, env), IsCreateLanguage, true)
         == MapSeq(procLangs, LanguageCreateOf(env))
  {
    if procLangs != [] {
      var blocks := LanguageBlocks(funcInfoMap, procLangMetadata, env);
      var l := procLangs[0];
      LanguageCreatesInOrder(procLangs[1..], funcInfoMap, procLangMetadata, env);
      LanguageBlockCreate(l, funcInfoMap, procLangMetadata, env);
      FilterAppend(blocks(l), FlatMap(procLangs[1..], blocks), IsCreateLanguage, true);
      MapSeqAppend([l], procLangs[1..], LanguageCreateOf(env));
      assert procLangs == [l] + procLangs[1..];
    }
  }

  /** The language statements are the languages' own blocks, in input order: emitting
      two lists one after the other is emitting their concatenation, and a single
      language gives exactly its block. */
  lemma LanguageStatementsCompose(a: seq<QueryProceduralLanguage>, b: seq<QueryProceduralLanguage>,
                                  l: QueryProceduralLanguage, funcInfoMap: map<Oid, FunctionInfo>,
                                  procLangMetadata: MetadataMap, env: Collaborators)
    ensures PrintCreateLanguageStatements(a + b, funcInfoMap, procLangMetadata, env)
         == PrintCreateLanguageStatements(a, funcInfoMap, procLangMetadata, env)
          + PrintCreateLanguageStatements(b, funcInfoMap, procLangMetadata, env)
    ensures PrintCreateLanguageStatements([l], funcInfoMap, procLangMetadata, env)
         == LanguageBlock(l, funcInfoMap, procLangMetadata, env)
  {
    var blocks := LanguageBlocks(funcInfoMap, procLangMetadata, env);
    FlatMapAppend(a, b, blocks);
    FlatMapSingleton(l, blocks);
  }

  /** The written language block starts with CREATE TRUSTED exactly for trusted languages. */
  lemma LanguageTextTrustedIff(l: QueryProceduralLanguage, funcInfoMap: map<Oid, FunctionInfo>,
                               procLangMetadata: MetadataMap, env: Collaborators)
    ensures CreateTrustedPrefix <= Render(LanguageBlock(l, funcInfoMap, procLangMetadata, env), env) <==> l.plTrusted
  {
    var block := LanguageBlock(l, funcInfoMap, procLangMetadata, env);
    CreateLanguageTrustedIff(l.plTrusted, env.quoteIdent(l.name), env);
    RenderPrefix(block, env, CreateTrustedPrefix);
  }

  /** A language with only an inline function gets exactly one owner change, for
      that function. */
  lemma InlineOnlyLanguage(l: QueryProceduralLanguage, funcInfoMap: map<Oid, FunctionInfo>,
                           procLangMetadata: MetadataMap, env: Collaborators)
    requires l.handler == 0 && l.inline != 0 && l.validator == 0
    ensures Count(LanguageBlock(l, funcInfoMap, procLangMetadata, env), IsAlterFunctionOwner) == 1
    ensures LanguageBlock(l, funcInfoMap, procLangMetadata, env)[1]
         == AlterFunctionOwner(FunctionInfoOf(funcInfoMap, l.inline).qualifiedName,
                               FunctionInfoOf(funcInfoMap, l.inline).arguments, env.quoteIdent(l.owner))
  {
    FunctionRefsSpelledOut(l);
    LanguageBlockCounts(l, funcInfoMap, procLangMetadata, env);
  }
}
