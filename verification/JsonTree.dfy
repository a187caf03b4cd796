/**
  A decoded JSON document as encoding/json delivers it under UseNumber: numbers keep their text,
  objects are unordered maps, and strings are sequences of Unicode scalar values.
  */
module JsonTree {
  datatype Tree =
    | Null
    | Bool(b: bool)
    | Text(s: string)
    | Number(text: string)
    | Array(items: seq<Tree>)
    | Object(members: map<string, Tree>)
}
