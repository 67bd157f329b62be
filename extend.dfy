/*
 * The extension types that the application registry and the JSON builder
 * exchange (the `Piranha.Extend` namespace). Only their identity matters to
 * the bootstrap logic, so each is a plain value.
 */
module Extend {

  /** Field types, identified by their implementing type. Only the three
      built-in field types are ever registered by the registry itself. */
  datatype FieldType = HtmlField | StringField | TextField

  /** A block type as it is declared in a configuration file and saved
      through the storage API. */
  datatype BlockType = BlockType(id: string, title: string)

  /** A page type as the storage API returns it. */
  datatype PageType = PageType(id: string, title: string)

  /** An extension module; what its `Init()` hook does is not modelled,
      only whether it completes. */
  datatype Module = Module(name: string)
}
