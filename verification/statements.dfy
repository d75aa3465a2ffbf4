/** The statements the pre-data emitter writes, and the text each one prints. */
module Statements {
  import opened Outcomes
  import opened Catalog

  datatype Stmt =
    | AddConstraint(table: string, quotedName: string, conDef: string)
    | CreateSchema(schemaName: string)
    | CreateLanguage(trusted: bool, quotedName: string)
    | AlterFunctionOwner(qualifiedName: string, arguments: string, quotedOwner: string)
      /** A metadata block for one object, addressed by name, object type and,
          for constraints, the owning table. */
    | Metadata(metadata: ObjectMetadata, objectName: string, objectType: string, owningTable: Option<string>)
      /** A bare line break between top-level blocks. */
    | Newline

  predicate IsAddConstraint(s: Stmt) { s.AddConstraint? }
  predicate IsCreateSchema(s: Stmt) { s.CreateSchema? }
  predicate IsCreateLanguage(s: Stmt) { s.CreateLanguage? }
  predicate IsAlterFunctionOwner(s: Stmt) { s.AlterFunctionOwner? }
  predicate IsMetadata(s: Stmt) { s.Metadata? }

  const CreateTrustedPrefix: string := "\n\nCREATE TRUSTED "

  /** The bytes one statement writes to the pre-data file. */
  function Text(s: Stmt, env: Collaborators): string
  {
    match s
    case AddConstraint(table, name, def) =>
      "\n\nALTER TABLE ONLY " + table + " ADD CONSTRAINT " + name + " " + def + ";\n"
    case CreateSchema(name) => "\nCREATE SCHEMA " + name + ";"
    case CreateLanguage(trusted, name) =>
      "\n\nCREATE " + (if trusted then "TRUSTED " else "") + "PROCEDURAL LANGUAGE " + name + ";"
    case AlterFunctionOwner(func, args, owner) =>
      "\nALTER FUNCTION " + func + "(" + args + ") OWNER TO " + owner + ";"
    case Metadata(md, name, kind, table) => env.printObjectMetadata(md, name, kind, table)
    case Newline => "\n"
  }

  /** The bytes a statement sequence writes, in order. */
  function Render(ss: seq<Stmt>, env: Collaborators): string
  {
    if ss == [] then "" else Text(ss[0], env) + Render(ss[1..], env)
  }

  /** The language creation text carries the TRUSTED keyword exactly when the
      statement is for a trusted language. */
  lemma CreateLanguageTrustedIff(trusted: bool, name: string, env: Collaborators)
    ensures |Text(CreateLanguage(trusted, name), env)| >= |CreateTrustedPrefix|
    ensures CreateTrustedPrefix <= Text(CreateLanguage(trusted, name), env) <==> trusted
  {
    var text := Text(CreateLanguage(trusted, name), env);
    if trusted {
      assert text == CreateTrustedPrefix + ("PROCEDURAL LANGUAGE " + name + ";");
    } else {
      assert text == "\n\nCREATE PROCEDURAL LANGUAGE " + name + ";";
      assert text[9] == 'P' && CreateTrustedPrefix[9] == 'T';
    }
  }

  /** A rendered stream starts with a prefix no longer than its first statement's
      text exactly when that text does. */
  lemma RenderPrefix(ss: seq<Stmt>, env: Collaborators, prefix: string)
    requires ss != [] && |prefix| <= |Text(ss[0], env)|
    ensures prefix <= Render(ss, env) <==> prefix <= Text(ss[0], env)
  {
    var first := Text(ss[0], env);
    var text := Render(ss, env);
    assert text == first + Render(ss[1..], env);
    assert text[..|first|] == first;
    assert text[..|prefix|] == first[..|prefix|];
  }
}
