/** The two closed sets of protocol messages (chat/src/lib.rs).

    The Rust payloads are `Arc<String>`: immutable strings shared between
    owners. A Dafny `string` is an immutable value, so sharing is invisible and
    the derived `PartialEq` (same variant, equal contents) is datatype equality. */
module Messages {

  /** Client -> server requests. */
  datatype Client =
    | Join(chat_name: string)
    | Post(chat_name: string, message: string)

  /** Server -> client replies; `Error` carries one unnamed string, as in the source. */
  datatype Server =
    | Message(chat_name: string, message: string)
    | Error(string)
}
