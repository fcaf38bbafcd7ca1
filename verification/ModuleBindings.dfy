/** Exported surfaces and the bindings of imports and re-exports that pick from them. */
module ModuleBindings {

  type Path = string

  datatype Surface = Surface(nodeId: string, name: string)

  datatype Kind = Import | ReExport | Require

  /** `{ imported as local }`, or `{ imported as exported } from`; "*" on both sides is `export * from`. */
  datatype Binding = Binding(imported: string, exported: string, local: string) {
    function LocalName(): string { if local != "" then local else imported }
  }

  /** matchingBindingSurfaces: a name or all of them, but `export *` leaves out the default export. */
  predicate Takes(kind: Kind, b: Binding, s: Surface) {
    && (b.imported == "*" || s.name == b.imported)
    && !(kind == ReExport && b.imported == "*" && b.exported == "*" && s.name == "default")
  }
}
