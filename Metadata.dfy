/** Opaque handles shared by the instruction emitter, the AST lowering and the type builder.
    XamlX's type-system objects (Cecil references and XamlX's type wrappers) are
    reduced to their identity: two handles are the same object exactly when they are equal. */
module Metadata {

  datatype Option<+T> = None | Some(value: T)

  /** A type reference that has already been imported into the module under construction. */
  datatype TypeRef = TypeRef(token: nat)

  /** An imported field, method or constructor reference. */
  datatype MemberRef = MemberRef(token: nat)

  /** The assembly that owns the module being written. */
  datatype AssemblyId = AssemblyId(token: nat)
}
