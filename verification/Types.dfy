/** Integer widths, D-Bus vector values and options shared by the other modules. */
module Types {

  type uint8 = n: int | 0 <= n < 0x100
  type uint16 = n: int | 0 <= n < 0x1_0000

  /** `static_cast<uint8_t>`: the value modulo 256, also for negative numbers. */
  function CastU8(n: int): uint8 {
    n % 0x100
  }

  /** `static_cast<uint16_t>`. */
  function CastU16(n: int): uint16 {
    n % 0x1_0000
  }

  function Min(a: int, b: int): int {
    if a < b then a else b
  }

  datatype Option<+T> = None | Some(value: T)

  /** The vector types a published table property can hold. */
  datatype Kind = U8 | U16 | Text

  datatype Vec =
    | Bytes(bytes: seq<uint8>)
    | Words(words: seq<uint16>)
    | Texts(texts: seq<string>)
  {
    function Size(): nat {
      match this
      case Bytes(b) => |b|
      case Words(w) => |w|
      case Texts(t) => |t|
    }

    function KindOf(): Kind {
      match this
      case Bytes(_) => U8
      case Words(_) => U16
      case Texts(_) => Text
    }
  }

  /** A D-Bus object as `GetAll` returns it: property names to vectors. */
  type Object = map<string, Vec>
}
