/** Service payloads and the log of calls the keyboard element dispatches. */
module Payload {

  /** One value of a service payload: a string, a list of strings, a number,
      a list of numbers or a boolean. */
  datatype Value =
    | Str(s: string)
    | StrList(ss: seq<string>)
    | Num(n: real)
    | NumList(ns: seq<real>)
    | Bool(b: bool)

  /** A service payload: field names to values. */
  type Data = map<string, Value>

  /** One entry of the dispatch log.
      - `ServiceCall`: the host's service invocation `domain.service(data)`;
      - `SendCommand`: the base element's remote command for a key code;
      - `Haptic`: a haptic feedback request of the given strength. */
  datatype Call =
    | ServiceCall(domain: string, service: string, data: Data)
    | SendCommand(command: string)
    | Haptic(kind: string)
}
