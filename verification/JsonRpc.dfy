/**
 JSON-RPC responses, and codecs between them and bytes. JSON itself is abstract: a codec is any parser and printer.
 */
module JsonRpc {
  import opened Common

  datatype Id = Number(n: u64) | Text(text: string) | Null

  datatype ErrorObject = ErrorObject(code: int, message: string, data: Option<string>)

  datatype Response<T> = Response(id: Id, result: Result<T, ErrorObject>)

  datatype Codec<!T> = Codec(parse: Bytes -> Option<T>, render: T -> Bytes)

  /** What was printed parses back. */
  ghost predicate RoundTrips<T(!new)>(codec: Codec<T>) {
    forall t :: codec.parse(codec.render(t)) == Some(t)
  }

  lemma PrintInjective<T(!new)>(codec: Codec<T>, s: T, t: T)
    requires RoundTrips(codec)
    ensures codec.render(s) == codec.render(t) <==> s == t
  {
    assert codec.parse(codec.render(s)) == Some(s);
    assert codec.parse(codec.render(t)) == Some(t);
  }
}
