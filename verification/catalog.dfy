/** Rows the catalog queries hand to the pre-data emitter, the lookup tables that
    accompany them, and the printing helpers the emitter calls but whose bodies are
    not part of this model. */
module Catalog {
  import opened Outcomes

  /** A catalog object identifier (a Go `uint32`). Zero means "no object". */
  type Oid = x: int | 0 <= x < 0x1_0000_0000

  /** One table constraint; `conType` is the catalog's one-letter tag ("p", "u", "c", "f", ...). */
  datatype QueryConstraint = QueryConstraint(
    oid: Oid,
    conName: string,
    conType: string,
    conDef: string,
    owningTable: string)

  /** One schema. */
  datatype Schema = Schema(oid: Oid, name: string)

  /** One procedural language; a zero handler, inline or validator oid means the
      language has no such function. */
  datatype QueryProceduralLanguage = QueryProceduralLanguage(
    oid: Oid,
    name: string,
    owner: string,
    plTrusted: bool,
    handler: Oid,
    inline: Oid,
    validator: Oid)

  /** The schema-qualified name and argument list of a function. */
  datatype FunctionInfo = FunctionInfo(qualifiedName: string, arguments: string)

  /** Ownership, privileges and comment of one object, passed through unchanged. */
  datatype ObjectMetadata = ObjectMetadata(owner: string, privileges: seq<string>, comment: string)

  type MetadataMap = map<Oid, ObjectMetadata>

  /** Go's zero values, which a lookup of an absent map key yields. */
  const NoMetadata: ObjectMetadata := ObjectMetadata("", [], "")
  const NoFunctionInfo: FunctionInfo := FunctionInfo("", "")

  /** `metadata[oid]` with Go map semantics: an absent key gives the zero value. */
  function MetadataOf(metadata: MetadataMap, oid: Oid): ObjectMetadata
  {
    if oid in metadata then metadata[oid] else NoMetadata
  }

  /** `funcInfoMap[oid]` with Go map semantics: an absent key gives the zero value. */
  function FunctionInfoOf(funcInfoMap: map<Oid, FunctionInfo>, oid: Oid): FunctionInfo
  {
    if oid in funcInfoMap then funcInfoMap[oid] else NoFunctionInfo
  }

  /** The helpers the emitter calls without this model fixing their behaviour:
      identifier quoting, a schema's printable name, and the text of a metadata
      block (object metadata, object name, object type, optional owning table). */
  datatype Collaborators = Collaborators(
    quoteIdent: string -> string,
    schemaToString: Schema -> string,
    printObjectMetadata: (ObjectMetadata, string, string, Option<string>) -> string)
}
