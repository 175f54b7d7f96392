/** The tree the printers walk, as the public accessors of the library show it.
    A string pointer that may be NULL is an `Option`; a string is the sequence of its
    characters before the terminating NUL. */
module DocumentTree {
  import opened Common

  datatype Attribute = Attribute(name: Option<string>, value: Option<string>)

  datatype NamespaceDecl = NamespaceDecl(prefix: Option<string>, uri: Option<string>)

  datatype Node =
    | Element(name: Option<string>,
              attributes: seq<Attribute>,
              nsUri: Option<string>,
              nsPrefix: Option<string>,
              nsDecls: seq<NamespaceDecl>,
              text: Option<string>,      // what `leptris_element_text` returns
              children: seq<Node>)
    | Text(content: Option<string>)
    | CData(content: Option<string>)
    | Comment(content: Option<string>)
    | ProcessingInstruction(target: Option<string>, data: Option<string>)
    | OtherNode                          // DOCTYPE and entity-reference nodes

  /** The printers skip an attribute whose name is NULL or empty. */
  predicate HasName(a: Attribute) {
    a.name.Some? && a.name.value != ""
  }

  /** The attributes that are printed: those with a name, an absent value being empty. */
  function ShownAttributes(attrs: seq<Attribute>): seq<(string, string)> {
    if attrs == [] then []
    else (if HasName(attrs[0]) then [(attrs[0].name.value, attrs[0].value.GetOr(""))] else [])
         + ShownAttributes(attrs[1..])
  }
}
