/** The values GenericValue holds, without doubles, and the events Accept sends to a handler. */
module JsonValue {
  import opened ByteStreams

  /** Any number a GenericValue built from an int, unsigned, int64_t or uint64_t can hold. */
  type Integer = n: int | -0x8000_0000_0000_0000 <= n < 0x1_0000_0000_0000_0000

  datatype Value =
    | Null
    | Bool(b: bool)
    | Number(n: Integer)
    | String(s: seq<Byte>)
    | Array(elements: seq<Value>)
    | Object(members: seq<Member>)

  datatype Member = Member(name: seq<Byte>, value: Value)

  datatype Width = Int | Uint | Int64 | Uint64

  datatype Event =
    | NullEvent
    | BoolEvent(b: bool)
    | NumberEvent(width: Width, n: Integer)
    | StringEvent(s: seq<Byte>)
    | KeyEvent(s: seq<Byte>)
    | StartObject
    | EndObject(memberCount: nat)
    | StartArray
    | EndArray(elementCount: nat)

  predicate Fits(width: Width, n: int) {
    match width
    case Int => -0x8000_0000 <= n < 0x8000_0000
    case Uint => 0 <= n < 0x1_0000_0000
    case Int64 => -0x8000_0000_0000_0000 <= n < 0x8000_0000_0000_0000
    case Uint64 => 0 <= n < 0x1_0000_0000_0000_0000
  }

  /** Who sends the events: Accept and the parser choose between the four integer events differently. */
  datatype Sender = Accept | Parser

  function WidthOf(sender: Sender, n: Integer): (w: Width)
    ensures Fits(w, n)
  {
    match sender
    case Accept =>
      if Fits(Int, n) then Int else if Fits(Uint, n) then Uint else if Fits(Int64, n) then Int64 else Uint64
    case Parser =>
      if n < 0 then if Fits(Int, n) then Int else Int64
      else if Fits(Uint, n) then Uint else Uint64
  }

  /** Accept calls the first of Int, Uint, Int64 and Uint64 that fits; the parser goes by the sign and the size. */
  lemma WidthTable(n: Integer)
    ensures match WidthOf(Accept, n)
            case Int => -0x8000_0000 <= n < 0x8000_0000
            case Uint => 0x8000_0000 <= n < 0x1_0000_0000
            case Int64 => n < -0x8000_0000 || 0x1_0000_0000 <= n < 0x8000_0000_0000_0000
            case Uint64 => 0x8000_0000_0000_0000 <= n
    ensures match WidthOf(Parser, n)
            case Int => -0x8000_0000 <= n < 0
            case Uint => 0 <= n < 0x1_0000_0000
            case Int64 => n < -0x8000_0000
            case Uint64 => 0x1_0000_0000 <= n
  {
  }

  /** The events of a whole value, in the order they are sent. */
  function Events(sender: Sender, v: Value): (es: seq<Event>)
    ensures es != []
    decreases v
  {
    match v
    case Null => [NullEvent]
    case Bool(b) => [BoolEvent(b)]
    case Number(n) => [NumberEvent(WidthOf(sender, n), n)]
    case String(s) => [StringEvent(s)]
    case Array(vs) => [StartArray] + ElementEvents(sender, vs) + [EndArray(|vs|)]
    case Object(ms) => [StartObject] + MemberEvents(sender, ms) + [EndObject(|ms|)]
  }

  function ElementEvents(sender: Sender, vs: seq<Value>): (es: seq<Event>)
    decreases vs
  {
    if vs == [] then [] else Events(sender, vs[0]) + ElementEvents(sender, vs[1..])
  }

  function MemberEvents(sender: Sender, ms: seq<Member>): (es: seq<Event>)
    decreases ms
  {
    if ms == [] then []
    else [KeyEvent(ms[0].name)] + Events(sender, ms[0].value) + MemberEvents(sender, ms[1..])
  }
}
