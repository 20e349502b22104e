/** Small shared vocabulary: optional values, Go-style error returns,
    bytes and HTTP header maps. */
module Common {

  /** An optional value; `None` stands for Go's `nil` / "not found". */
  datatype Option<+T> = None | Some(value: T) {
    function GetOr(default: T): T {
      match this
      case Some(v) => v
      case None => default
    }
  }

  /** The `error` result of a Go call: `Ok` is a nil error. */
  datatype Outcome = Ok | Err(msg: string)

  /** The first non-nil error of two, as `if err1 != nil { return err1 }; return err2`. */
  function FirstError(e1: Outcome, e2: Outcome): (r: Outcome)
    ensures e1.Err? ==> r == e1
    ensures e1.Ok? ==> r == e2
  {
    if e1.Err? then e1 else e2
  }

  newtype byte = x: int | 0 <= x < 256

  /** A success status: 200 through 299. */
  predicate Is2xx(status: int) {
    200 <= status < 300
  }

  /** A response header map as Go's `http.Header`: each name maps to its values. */
  type Header = map<string, seq<string>>

  /** Go's `Header.Get`-style read: the first value, or "" when absent. */
  function HeaderValue(h: Header, name: string): (v: string)
    ensures name in h && |h[name]| > 0 ==> v == h[name][0]
    ensures (name !in h || |h[name]| == 0) ==> v == ""
  {
    if name in h && |h[name]| > 0 then h[name][0] else ""
  }

  /** gin's `c.Header(name, value)`: replace every value of `name` by
      `value`, or delete `name` when `value` is empty. */
  function SetHeader(h: Header, name: string, value: string): (h': Header)
    ensures value != "" ==> h'.Keys == h.Keys + {name} && h'[name] == [value]
    ensures value == "" ==> h'.Keys == h.Keys - {name}
    ensures forall n :: n in h && n != name ==> n in h' && h'[n] == h[n]
  {
    if value == "" then h - {name} else h[name := [value]]
  }

  /** The single-valued view of a header map that the cache stores: the first
      value of every name that has at least one value. */
  function FirstValues(h: Header): (m: map<string, string>)
    ensures forall n :: n in m <==> n in h && |h[n]| > 0
    ensures forall n :: n in m ==> m[n] == h[n][0]
  {
    map n | n in h && |h[n]| > 0 :: h[n][0]
  }

  /** The header map obtained by calling `c.Header(k, v)` on an empty
      header for every stored pair: pairs with an empty value leave no trace. */
  function ReplayHeaders(m: map<string, string>): (h: Header)
    ensures forall n :: n in h <==> n in m && m[n] != ""
    ensures forall n :: n in h ==> h[n] == [m[n]]
  {
    map n | n in m && m[n] != "" :: [m[n]]
  }

  /** Concatenation of byte chunks, in order. */
  function Flatten(chunks: seq<seq<byte>>): (r: seq<byte>)
  {
    if |chunks| == 0 then [] else Flatten(chunks[..|chunks| - 1]) + chunks[|chunks| - 1]
  }
}
