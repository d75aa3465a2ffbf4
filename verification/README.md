# gpbackup pre-data emitter and relation-name options, in Dafny

This project models two pieces of gpbackup, the Greenplum backup tool.

**Pre-data statements** (`backup/predata_general.go`). Before any table data is
restored, a backup writes the DDL that recreates the objects. This model covers
three emitters:

- Constraints. Foreign keys are moved after every other constraint, and each group
  keeps its input order. Each constraint then gets an `ALTER TABLE ONLY … ADD
  CONSTRAINT …` statement followed by its metadata block.
- Schemas. Every schema except `public` gets `CREATE SCHEMA`. Every schema,
  `public` included, gets a metadata block.
- Procedural languages. Each language gets `CREATE [TRUSTED] PROCEDURAL LANGUAGE`.
  Then comes one `ALTER FUNCTION … OWNER TO` for each non-zero handler, inline and
  validator function, in that order. The language's metadata block and a line
  break close the block.

Output is a sequence of `Stmt` values (module `Statements`). `Statements.Text`
gives the exact text each statement writes, and `Statements.Render` concatenates
those texts. A bare `Newline` statement stands for a `MustPrintln` call. Three
helpers are fields of a `Collaborators` record with no fixed behaviour:
identifier quoting, a schema's printable name, and the metadata printer.

**Relation names** (`options`). Users name the tables to back up as
`schema.table` entries. The Go implementation of the options package is not part
of this model. Its behaviour is modelled from the assertions of
`options/options_test.go`. Two points are this model's own choices, because
those tests do not decide them: every malformed entry is reported, not just the
first, and flag values come before file lines.

- An entry is well formed when it has exactly one dot and the dot is neither its
  first nor its last character. Any other punctuation belongs to the names.
- `SeparateSchemaAndTable` splits every well-formed entry. If any entry is
  malformed, it fails and reports every malformed entry, in input order.
- `ValidateCharacters` applies the same rule and names every bad entry in its
  error.
- `QuoteTableNames` splits the names, then looks each one up in the catalog. The
  lookup is a function parameter that returns the catalog's quoted schema and
  table. The first failed lookup aborts.
- `NewOptions` gathers the include-relation flag values, then the lines of the
  include-relation file. It validates the list and keeps the order for
  `GetIncludedTables`.

Modules:

- `Outcomes`: `Option`, `Result` and `Outcome`.
- `Sequences`: stable filter, partition, flat map, counting.
- `Text`: substring containment and joining.
- `Catalog`: the catalog rows and Go map lookups.
- `Statements`: the `Stmt` datatype and its text.
- `PredataGeneral`: the three emitters.
- `Options`: relation-name parsing, validation and quoting.

## Model

| member | source | states |
|---|---|---|
| Sequences.Partition | backup/predata_general.go:28-35 | The failing elements come first and the passing ones last. The result has the input's length and multiset, and each group keeps its input order. |
| Sequences.PartitionUnique | backup/predata_general.go:28-35 | Any sequence that puts the passing elements last and keeps both groups in input order equals the partition. |
| PredataGeneral.OrderConstraints | backup/predata_general.go:28-35 | The reordered constraints are a permutation of the input. Every foreign key (`conType == "f"`) follows every other constraint. The non-FK and FK groups each keep their input order. |
| PredataGeneral.OrderConstraintsUnique | backup/predata_general.go:28-35 | Any ordering with foreign keys last and both groups in input order is the emitter's ordering, so the partition is exactly the stable one. |
| PredataGeneral.PrintConstraintStatements | backup/predata_general.go:37-42 | Output is two statements per constraint. Position 2i holds ADD CONSTRAINT with the i-th reordered constraint's table, quoted name and definition. Position 2i+1 holds that constraint's metadata block, addressed by quoted name, "CONSTRAINT" and owning table. |
| PredataGeneral.ConstraintCounts | backup/predata_general.go:38-42 | The emitted stream holds exactly one ADD CONSTRAINT and one metadata block per constraint. |
| PredataGeneral.PrimaryKeyBeforeForeignKey | backup/predata_general.go:28-42 | Input [foreign key, primary key] is emitted with the primary key's ADD CONSTRAINT first and the foreign key's third. |
| PredataGeneral.SchemaBlock | backup/predata_general.go:46-52 | A schema's block is a line break, then CREATE SCHEMA unless the name is "public", then the schema's metadata block last. "public" gets no CREATE SCHEMA but does get metadata. |
| PredataGeneral.PrintCreateSchemaStatements | backup/predata_general.go:45-53 | There is one CREATE SCHEMA per schema not named "public" and one metadata block per schema. |
| PredataGeneral.SchemaStatementsCompose | backup/predata_general.go:45-53 | The schema stream is the schemas' own blocks in input order. Emitting a + b gives a's statements then b's, and one schema gives exactly its block. So each schema's line break, CREATE SCHEMA and own metadata block stay together, in input order. |
| PredataGeneral.SchemaCreatesInOrder | backup/predata_general.go:46-50 | The CREATE SCHEMA statements name exactly the non-"public" schemas, in input order. |
| PredataGeneral.FunctionRefsSpelledOut | backup/predata_general.go:73-84 | The referenced functions are the non-zero handler, inline and validator oids, in that order. |
| PredataGeneral.OwnerStatementsFollowRefs | backup/predata_general.go:73-84 | The three conditional owner changes are exactly one ALTER FUNCTION per referenced function, in order. |
| PredataGeneral.LanguageBlock | backup/predata_general.go:57-87 | A language's block has RefCount+3 statements. CREATE LANGUAGE with the trusted flag and quoted name comes first. Next come the owner changes of the referenced functions in order, each with the function's qualified name and arguments and the quoted language owner. The metadata block "LANGUAGE" is second to last and a line break is last. |
| PredataGeneral.LanguageBlockCounts | backup/predata_general.go:57-87 | Each language yields one CREATE LANGUAGE, one owner change per non-zero function oid, and one metadata block. |
| PredataGeneral.PrintCreateLanguageStatements | backup/predata_general.go:55-88 | There is one CREATE LANGUAGE and one metadata block per language. The total number of owner changes is the sum of the languages' non-zero function references. |
| PredataGeneral.LanguageStatementsCompose | backup/predata_general.go:55-88 | The language stream is the languages' own blocks in input order. Emitting a + b gives a's statements then b's, and one language gives exactly its block. So each language's owner changes, with its own quoted owner, follow its own CREATE, with its own metadata block after them. |
| PredataGeneral.LanguageBlockCreate | backup/predata_general.go:58-64 | A language's block holds exactly one CREATE LANGUAGE, with the language's trusted flag and quoted name. |
| PredataGeneral.LanguageCreatesInOrder | backup/predata_general.go:57-64 | The CREATE LANGUAGE statements of the whole stream are one per language, in input order. |
| PredataGeneral.LanguageTextTrustedIff | backup/predata_general.go:60-64 | The written language block starts with "\n\nCREATE TRUSTED " exactly when the language is trusted. |
| PredataGeneral.InlineOnlyLanguage | backup/predata_general.go:77-80 | A language with only an inline function gets exactly one owner change, right after CREATE, naming that function. |
| Statements.CreateLanguageTrustedIff | backup/predata_general.go:60-64 | The CREATE LANGUAGE text starts with "\n\nCREATE TRUSTED " if and only if the trusted flag is set. |
| Options.ParseEntry | options/options_test.go:143-175 | An entry splits if and only if it is well formed. The parts are non-empty, dot-free, and re-join to the entry. A missing dot is reported as such exactly when the entry has no dot, and extra dots exactly when it has more than one. For a one-dot entry, an empty schema name is reported exactly when the dot comes first, and an empty table name exactly when it comes last. |
| Options.ParseQualifiedName | options/options_test.go:143-152 | Splitting "schema.table" built from two usable name parts returns those parts. |
| Options.SplitThenJoin | options/options_test.go:143-152 | Joining the dot-separated pieces of a string with dots gives back the string. |
| Options.JoinThenSplit | options/options_test.go:143-152 | Splitting dot-free pieces joined with dots gives back the pieces. |
| Options.Rejections | options/options_test.go:154-175 | The rejected entries are exactly the malformed entries, in input order, each with the defect its own split reports. |
| Options.SplitAll | options/options_test.go:143-152 | Well-formed entries split one for one, in order. |
| Options.SeparateSchemaAndTable | options/options_test.go:143-175 | Success holds if and only if every entry is well formed. On success, the i-th result is the split of the i-th entry and spells it back. On failure, the error lists exactly the malformed entries in input order, each with its defect. |
| Options.RejectionMessage | options/options_test.go:154-175 | The aggregated error text contains every rejected entry verbatim. |
| Options.SeparateErrorNamesEveryBadEntry | options/options_test.go:154-175 | The failed split's error text contains every malformed entry of the batch. |
| Options.ValidateCharacters | options/options_test.go:114-140 | Validation passes if and only if every entry is well formed. On failure, the error text contains every malformed entry. |
| Options.AcceptsMixedCaseAndPunctuation | options/options_test.go:114-118 | "foo.bar", "foo.Bar", "FOO.Bar" and "FO!@#.BAR" pass validation. |
| Options.ValidateNamesLoneBadEntry | options/options_test.go:119-140 | A one-entry list whose entry does not split fails validation, and the error names the entry. |
| Options.ValidateRejectsEntryWithoutDot | options/options_test.go:119-123 | ["foobar"] fails validation. |
| Options.ValidateNamesBadEntryAmongGood | options/options_test.go:124-129 | ["foobar", "foo.bar"] fails validation, and the error contains "foobar". |
| Options.ValidateNamesMissingPart | options/options_test.go:130-140 | ["foo."] and [".bar"] each fail validation, and each error contains its entry. |
| Options.SplitsMixedCaseAndPunctuation | options/options_test.go:143-152 | ["foo.Bar", "FOO.Bar", "FO!@#.BAR"] splits into (foo, Bar), (FOO, Bar), (FO!@#, BAR), with case and punctuation kept. |
| Options.SeparateAllParsed | options/options_test.go:143-152 | A batch whose entries each split to given names splits to exactly those names, in order. |
| Options.RejectsEmptyTableName | options/options_test.go:154-158 | "foo." is rejected for an empty table name. |
| Options.RejectsEmptySchemaName | options/options_test.go:159-163 | ".bar" is rejected for an empty schema name. |
| Options.RejectsEntryWithoutDot | options/options_test.go:164-167 | "foobar" is rejected for a missing dot. |
| Options.RejectsTwoDots | options/options_test.go:169-175 | "foobar.baz.bam" is rejected for extra dots. |
| Options.SeparateNamesLoneBadEntry | options/options_test.go:154-175 | Splitting a one-entry list whose entry does not split fails, and the error names the entry. |
| Options.SeparateNamesEntryWithoutTable | options/options_test.go:154-158 | The split error for ["foo."] contains "foo.". |
| Options.SeparateNamesEntryWithoutSchema | options/options_test.go:159-163 | The split error for [".bar"] contains ".bar". |
| Options.SeparateNamesEntryWithoutDot | options/options_test.go:164-167 | The split error for ["foobar"] contains "foobar". |
| Options.SeparateNamesEntryWithTwoDots | options/options_test.go:169-175 | Splitting ["foobar.baz.bam"] fails, and the error contains the entry. |
| Options.OneBadEntryFailsTheBatch | options/options_test.go:124-129 | One malformed entry fails the split of ["foobar", "foo.bar"], and the error contains "foobar". |
| Options.QuoteEach | options/options_test.go:193-226 | The lookups succeed if and only if every per-name lookup succeeds. The results are the lookups' "schema.table" in input order. A failure carries the error of the first failing lookup. |
| Options.QuoteTableNames | options/options_test.go:187-226 | An empty list gives an empty result. On success, there is one result per name, in input order, built from the lookup of that name's parts. Success holds if and only if every name is well formed and every lookup succeeds. A malformed name is reported as invalid names exactly when one exists, and the error lists exactly the malformed names in order. A lookup failure, with every name well formed, carries the error of the first failing lookup; all earlier lookups succeeded. |
| Options.QuoteTableNamesIdentity | options/options_test.go:193-226 | If the catalog returns every name unchanged, quoting well-formed names returns the input list. |
| Options.QuotesThreeNames | options/options_test.go:205-226 | With such a catalog, ["public.one", "public.two", "public.three"] is returned unchanged. |
| Options.NewOptions | options/options_test.go:29-111 | Options are built if and only if every flag and file entry is well formed. The included tables are then the flag entries followed by the file entries. Otherwise the error names every malformed entry. |
| Options.NewOptionsKeepsOrder | options/options_test.go:62-103 | Well-formed flag and file entries all become included tables, in the order given. |
| Options.NoIncludedTablesByDefault | options/options_test.go:30-36 | With no flags and no file there are no included tables. |
| Options.IncludedFromFlags | options/options_test.go:37-78 | One flag "foo.bar" gives ["foo.bar"]. Two flags "foo.bar", "bar.baz" give both, in that order. |
| Options.IncludedFromFile | options/options_test.go:79-103 | The file lines "myschema.mytable", "myschema.mytable2" give both, in that order. |
| Options.RejectsInvalidInclusion | options/options_test.go:104-111 | The flag value "foo" makes option creation fail. |
| Options.SpecialCharactersWellFormed | options/options_test.go:50-61 | The entry with quote, punctuation and escaped tab and newline before ".bar" is well formed. |
| Options.KeepsSpecialCharacters | options/options_test.go:50-61 | That entry is accepted and comes back verbatim as the one included table. |

## Left out

- Byte output through `io.Writer`, `MustPrintf` and `MustPrintln`, and the panics they raise on write errors. The output is the statement sequence plus `Statements.Text`.
- The bodies of `utils.QuoteIdent`, `Schema.ToString` and `PrintObjectMetadata`. Their source is not part of this model, so they are arbitrary functions in `Catalog.Collaborators`. The metadata printer gets the whole `ObjectMetadata` record.
- `ObjectMetadata` and `FunctionInfo` carry only the fields the emitters pass on; the rest of the catalog rows is omitted.
- A function oid absent from the function-info map yields Go's zero `FunctionInfo`, as the code at backup/predata_general.go:74,78,82 does; no error is raised.
- The database connection, sqlmock and the query text of `QuoteTableNames`. A pure per-name lookup function stands in for them. Connection errors are modelled only as "a failed lookup aborts". How many queries are issued is not modelled.
- pflag parsing and temp-file reading in `NewOptions`. The model takes the flag values and the file lines as two lists.
- Whether the Go code stops at the first malformed entry or reports them all. Every failing test has exactly one bad entry, so the tests cannot tell. Reporting every malformed entry, in input order, is this model's own choice.
- How flag values and file lines combine when both are given. No test sets both. Putting the flag values before the file lines is this model's own choice.
- The pending cases for dots, commas and quotes inside schema or table names (options/options_test.go:227-235). Their behaviour is undefined, so entries with embedded dots are simply malformed here.
- The wording of the error messages. Only the properties the tests check are modelled: an error occurs, and it contains each offending entry. The message prefixes are this model's own.
- Character classes beyond the dot: no test rejects any character other than the dot, so entries are rejected only by the dot rule.
