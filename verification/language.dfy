/**
 * The vocabulary shared by the model tree and the renderer: accessibility
 * flags, members with their owning-type back-reference, and the five kinds
 * of type a metadata document can describe.
 */
module Language {
  import opened Results

  /** Index of a node in the model-tree arena. */
  type NodeId = nat

  /**
   * The accessibility flags read from the metadata. They are independent
   * booleans: "internal protected" is both `isInternal` and `isProtected`.
   */
  datatype Access = Access(isPublic: bool, isProtected: bool, isInternal: bool, isPrivate: bool)

  /**
   * A field, property, method or event. `owner` is the back-reference to the
   * type node that declares it; it is `None` until the builder wires it.
   */
  datatype Member = Member(name: string, access: Access, owner: Option<NodeId>)

  datatype TypeKind = Class | Enum | Interface | Struct | Delegate

  /** The member collections of a type, in the order the builder wires them. */
  datatype Members = Members(properties: seq<Member>, fields: seq<Member>, events: seq<Member>, methods: seq<Member>)
}
