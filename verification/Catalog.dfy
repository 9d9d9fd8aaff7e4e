/** A tool definition as every benchmark component sees it. */
module Catalog {

  /** `schema` is the raw input schema, empty when the tool carries none. */
  datatype Tool = Tool(toolId: string, server: string, name: string, description: string, schema: string)
}
