/** JSON values as both the streaming writer and the tree parser see them. Numbers are
    their text; strings are the bytes of a C string. */
module JsonTree {
  import opened Bytes

  datatype Json =
    | Null | Bool(value: bool) | Number(digits: seq<byte>) | String(text: seq<byte>)
    | Array(items: Items) | Object(members: Members)

  datatype Items = NoItems | Item(head: Json, tail: Items)

  datatype Members = NoMembers | Member(key: seq<byte>, value: Json, rest: Members)

  const QUOTE: byte := 34
  const COMMA: byte := 44
  const COLON: byte := 58
  const OPEN_ARRAY: byte := 91
  const CLOSE_ARRAY: byte := 93
  const OPEN_OBJECT: byte := 123
  const CLOSE_OBJECT: byte := 125

  const NULL_TEXT: seq<byte> := [110, 117, 108, 108]
  const TRUE_TEXT: seq<byte> := [116, 114, 117, 101]
  const FALSE_TEXT: seq<byte> := [102, 97, 108, 115, 101]

  function BoolText(b: bool): seq<byte> { if b then TRUE_TEXT else FALSE_TEXT }

  function Max(a: nat, b: nat): nat { if a < b then b else a }

  /** How many containers deep a value goes. */
  function Depth(t: Json): nat {
    match t
    case Array(items) => 1 + ItemsDepth(items)
    case Object(members) => 1 + MembersDepth(members)
    case _ => 0
  }

  function ItemsDepth(items: Items): nat {
    match items
    case NoItems => 0
    case Item(head, tail) => Max(Depth(head), ItemsDepth(tail))
  }

  function MembersDepth(members: Members): nat {
    match members
    case NoMembers => 0
    case Member(_, value, rest) => Max(Depth(value), MembersDepth(rest))
  }

  function Quoted(s: seq<byte>): seq<byte> { [QUOTE] + s + [QUOTE] }

  /** The compact text of a value whose strings need no escape. */
  function Text(t: Json): seq<byte> {
    match t
    case Null => NULL_TEXT
    case Bool(b) => BoolText(b)
    case Number(digits) => digits
    case String(s) => Quoted(s)
    case Array(items) => [OPEN_ARRAY] + ItemsText(items, true) + [CLOSE_ARRAY]
    case Object(members) => [OPEN_OBJECT] + MembersText(members, true) + [CLOSE_OBJECT]
  }

  function Separator(first: bool): seq<byte> { if first then [] else [COMMA] }

  function ItemsText(items: Items, first: bool): seq<byte> {
    match items
    case NoItems => []
    case Item(head, tail) => Separator(first) + Text(head) + ItemsText(tail, false)
  }

  function MembersText(members: Members, first: bool): seq<byte> {
    match members
    case NoMembers => []
    case Member(key, value, rest) =>
      Separator(first) + Quoted(key) + [COLON] + Text(value) + MembersText(rest, false)
  }
}
