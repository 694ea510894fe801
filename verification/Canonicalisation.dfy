/**
 Making the responses that different replicas received byte-identical (`ResponseTransform::apply`, `sort_by_hash`,
 `cleanup_response`).
 */
module Canonicalisation {
  import opened Common
  import opened StableSorting
  import opened JsonRpc
  import S = SendRawTransaction

  datatype ResponseTransform = Block | LogEntries | TransactionReceipt | FeeHistory | SendRawTransaction

  /**
   How each payload is read and written. `logHash` is the hash of a log entry's serialisation, as a number;
   `lower` lower-cases an error message.
   */
  datatype Formats<!B, !L, !R, !F> = Formats(
    block: Codec<Response<B>>,
    logs: Codec<Response<seq<L>>>,
    receipt: Codec<Response<R>>,
    feeHistory: Codec<Response<F>>,
    sent: Codec<Response<string>>,
    logHash: L -> int,
    lower: string -> string)

  ghost predicate Lawful<B(!new), L(!new), R(!new), F(!new)>(f: Formats<B, L, R, F>) {
    RoundTrips(f.block) && RoundTrips(f.logs) && RoundTrips(f.receipt) && RoundTrips(f.feeHistory) && RoundTrips(f.sent)
  }

  /** `redact_response`: a readable body is printed anew. */
  function Redacted<T>(codec: Codec<Response<T>>, body: Bytes): Bytes {
    match codec.parse(body)
    case None => body
    case Some(response) => codec.render(response)
  }

  function SortResult<T>(response: Response<seq<T>>, hash: T -> int): Response<seq<T>> {
    match response.result
    case Ok(items) => response.(result := Ok(Sort(items, hash)))
    case Err(_) => response
  }

  /** `redact_collection_response`: a readable collection is sorted by hash first. */
  function RedactedCollection<T>(codec: Codec<Response<seq<T>>>, hash: T -> int, body: Bytes): Bytes {
    match codec.parse(body)
    case None => body
    case Some(response) => codec.render(SortResult(response, hash))
  }

  function Transformed<B, L, R, F>(f: Formats<B, L, R, F>, t: ResponseTransform, body: Bytes): Bytes {
    match t
    case Block => Redacted(f.block, body)
    case LogEntries => RedactedCollection(f.logs, f.logHash, body)
    case TransactionReceipt => Redacted(f.receipt, body)
    case FeeHistory => Redacted(f.feeHistory, body)
    case SendRawTransaction => S.Sanitized(f.sent, f.lower, body)
  }

  /** Readable bodies become identical exactly when they carry the same response. */
  lemma RedactedSameIff<T(!new)>(codec: Codec<Response<T>>, a: Bytes, b: Bytes)
    requires RoundTrips(codec) && codec.parse(a).Some? && codec.parse(b).Some?
    ensures Redacted(codec, a) == Redacted(codec, b) <==> codec.parse(a) == codec.parse(b)
  {
    PrintInjective(codec, codec.parse(a).value, codec.parse(b).value);
  }

  /** The same items, whatever their order; errors are compared as they are. */
  ghost predicate SameUpToOrder<T>(a: Response<seq<T>>, b: Response<seq<T>>) {
    a.id == b.id && match (a.result, b.result)
                    case (Ok(x), Ok(y)) => multiset(x) == multiset(y)
                    case (Err(x), Err(y)) => x == y
                    case _ => false
  }

  /**
   Bodies that parse become identical exactly when they answer the same request with the same log entries in any
   order, provided distinct entries of the first have distinct hashes.
   */
  lemma LogsConvergeIff<T(!new)>(codec: Codec<Response<seq<T>>>, hash: T -> int, a: Bytes, b: Bytes)
    requires RoundTrips(codec) && codec.parse(a).Some? && codec.parse(b).Some?
    requires codec.parse(a).value.result.Ok? ==> InjectiveOn(codec.parse(a).value.result.value, hash)
    ensures RedactedCollection(codec, hash, a) == RedactedCollection(codec, hash, b)
       <==> SameUpToOrder(codec.parse(a).value, codec.parse(b).value)
  {
    var x, y := codec.parse(a).value, codec.parse(b).value;
    PrintInjective(codec, SortResult(x, hash), SortResult(y, hash));
    if x.result.Ok? && y.result.Ok? {
      SortCorrect(x.result.value, hash);
      SortCorrect(y.result.value, hash);
      if multiset(x.result.value) == multiset(y.result.value) {
        PermutationsConverge(x.result.value, y.result.value, hash);
      }
    }
  }

  /** Whatever order replicas received these entries in, they print the same bytes. */
  ghost predicate ReplicasAgree<T(!new)>(codec: Codec<Response<seq<T>>>, hash: T -> int, id: Id, items: seq<T>) {
    forall a, b :: multiset(a) == multiset(items) && multiset(b) == multiset(items) ==>
      codec.render(SortResult(Response(id, Ok(a)), hash)) == codec.render(SortResult(Response(id, Ok(b)), hash))
  }

  /** Injectivity of the hash on the entries present is exactly what agreement needs. */
  lemma ReplicasAgreeIff<T(!new)>(codec: Codec<Response<seq<T>>>, hash: T -> int, id: Id, items: seq<T>)
    requires RoundTrips(codec)
    ensures ReplicasAgree(codec, hash, id, items) <==> InjectiveOn(items, hash)
  {
    OrderInsensitiveIff(items, hash);
    forall a, b | multiset(a) == multiset(items) && multiset(b) == multiset(items)
      ensures codec.render(SortResult(Response(id, Ok(a)), hash)) == codec.render(SortResult(Response(id, Ok(b)), hash))
         <==> Sort(a, hash) == Sort(b, hash)
    {
      PrintInjective(codec, SortResult(Response(id, Ok(a)), hash), SortResult(Response(id, Ok(b)), hash));
    }
  }

  /** The entries survive: the transformed body parses to a response with the same entries, sorted. */
  lemma LogsPreserved<T(!new)>(codec: Codec<Response<seq<T>>>, hash: T -> int, body: Bytes)
    requires RoundTrips(codec) && codec.parse(body).Some?
    ensures
      var after := codec.parse(RedactedCollection(codec, hash, body));
      && after.Some?
      && SameUpToOrder(after.value, codec.parse(body).value)
      && (after.value.result.Ok? ==> Ascending(after.value.result.value, hash))
  {
    var response := codec.parse(body).value;
    assert codec.parse(codec.render(SortResult(response, hash))) == Some(SortResult(response, hash));
    if response.result.Ok? {
      SortCorrect(response.result.value, hash);
    }
  }

  /**
   What a transform does with two replicas' bodies that it can read. Log entries become identical exactly when they
   answer the same request with the same entries in any order, provided distinct entries have distinct hashes; the
   others that are printed anew exactly when they parse alike.
   */
  lemma TransformConverges<B(!new), L(!new), R(!new), F(!new)>(f: Formats<B, L, R, F>, a: Bytes, b: Bytes)
    requires Lawful(f)
    ensures f.logs.parse(a).Some? && f.logs.parse(b).Some?
            && (f.logs.parse(a).value.result.Ok? ==> InjectiveOn(f.logs.parse(a).value.result.value, f.logHash))
        ==> (Transformed(f, LogEntries, a) == Transformed(f, LogEntries, b)
             <==> SameUpToOrder(f.logs.parse(a).value, f.logs.parse(b).value))
    ensures f.block.parse(a).Some? && f.block.parse(b).Some?
        ==> (Transformed(f, Block, a) == Transformed(f, Block, b) <==> f.block.parse(a) == f.block.parse(b))
    ensures f.receipt.parse(a).Some? && f.receipt.parse(b).Some?
        ==> (Transformed(f, TransactionReceipt, a) == Transformed(f, TransactionReceipt, b)
             <==> f.receipt.parse(a) == f.receipt.parse(b))
    ensures f.feeHistory.parse(a).Some? && f.feeHistory.parse(b).Some?
        ==> (Transformed(f, FeeHistory, a) == Transformed(f, FeeHistory, b)
             <==> f.feeHistory.parse(a) == f.feeHistory.parse(b))
  {
    if f.logs.parse(a).Some? && f.logs.parse(b).Some?
       && (f.logs.parse(a).value.result.Ok? ==> InjectiveOn(f.logs.parse(a).value.result.value, f.logHash))
    {
      LogsConvergeIff(f.logs, f.logHash, a, b);
    }
    if f.block.parse(a).Some? && f.block.parse(b).Some? {
      RedactedSameIff(f.block, a, b);
    }
    if f.receipt.parse(a).Some? && f.receipt.parse(b).Some? {
      RedactedSameIff(f.receipt, a, b);
    }
    if f.feeHistory.parse(a).Some? && f.feeHistory.parse(b).Some? {
      RedactedSameIff(f.feeHistory, a, b);
    }
  }

  /**
   And what it keeps. A body it can read still parses to the same response, with log entries sorted by hash; one it
   cannot read is left alone.
   */
  lemma TransformKeeps<B(!new), L(!new), R(!new), F(!new)>(f: Formats<B, L, R, F>, body: Bytes)
    requires Lawful(f)
    ensures
      var after := f.logs.parse(Transformed(f, LogEntries, body));
      f.logs.parse(body).Some? ==>
        && after.Some? && SameUpToOrder(after.value, f.logs.parse(body).value)
        && (after.value.result.Ok? ==> Ascending(after.value.result.value, f.logHash))
    ensures f.block.parse(Transformed(f, Block, body)) == f.block.parse(body)
    ensures f.receipt.parse(Transformed(f, TransactionReceipt, body)) == f.receipt.parse(body)
    ensures f.feeHistory.parse(Transformed(f, FeeHistory, body)) == f.feeHistory.parse(body)
    ensures f.logs.parse(body).None? ==> Transformed(f, LogEntries, body) == body
    ensures f.block.parse(body).None? ==> Transformed(f, Block, body) == body
    ensures f.receipt.parse(body).None? ==> Transformed(f, TransactionReceipt, body) == body
    ensures f.feeHistory.parse(body).None? ==> Transformed(f, FeeHistory, body) == body
    ensures f.sent.parse(body).None? ==> Transformed(f, ResponseTransform.SendRawTransaction, body) == body
  {
    if f.logs.parse(body).Some? {
      LogsPreserved(f.logs, f.logHash, body);
    }
    RedactedParse(f.block, body);
    RedactedParse(f.receipt, body);
    RedactedParse(f.feeHistory, body);
  }

  lemma RedactedParse<T(!new)>(codec: Codec<Response<T>>, body: Bytes)
    requires RoundTrips(codec)
    ensures codec.parse(Redacted(codec, body)) == codec.parse(body)
  {
    if codec.parse(body).Some? {
      assert codec.parse(codec.render(codec.parse(body).value)) == codec.parse(body);
    }
  }

  /** The replies to a sent transaction that the transform makes identical to the common form of success. */
  lemma TransformedSent<B(!new), L(!new), R(!new), F(!new)>(f: Formats<B, L, R, F>, id: Id, body: Bytes)
    requires Lawful(f)
    ensures
      var common := f.sent.render(Response(id, Ok("Ok")));
      Transformed(f, ResponseTransform.SendRawTransaction, body) == common
      <==> S.MeansSent(f.sent, f.lower, id, body) || body == common
  {
    S.SentConverges(f.sent, f.lower, id, body);
  }

  /** Every transform is idempotent. */
  lemma TransformIdempotent<B(!new), L(!new), R(!new), F(!new)>(
      f: Formats<B, L, R, F>, t: ResponseTransform, body: Bytes)
    requires Lawful(f)
    ensures Transformed(f, t, Transformed(f, t, body)) == Transformed(f, t, body)
  {
    match t
    case Block => RedactIdempotent(f.block, body);
    case TransactionReceipt => RedactIdempotent(f.receipt, body);
    case FeeHistory => RedactIdempotent(f.feeHistory, body);
    case SendRawTransaction => S.SanitizingIdempotent(f.sent, f.lower, body);
    case LogEntries =>
      if f.logs.parse(body).Some? {
        var response := f.logs.parse(body).value;
        assert f.logs.parse(f.logs.render(SortResult(response, f.logHash))) == Some(SortResult(response, f.logHash));
        if response.result.Ok? {
          SortIdempotent(response.result.value, f.logHash);
        }
      }
  }

  lemma RedactIdempotent<T(!new)>(codec: Codec<Response<T>>, body: Bytes)
    requires RoundTrips(codec)
    ensures Redacted(codec, Redacted(codec, body)) == Redacted(codec, body)
  {
    if codec.parse(body).Some? {
      assert codec.parse(codec.render(codec.parse(body).value)) == codec.parse(body);
    }
  }

  /** Where a stable insertion puts `x` among the first `n` elements. */
  method FindPlace<T>(a: array<T>, n: nat, x: T, hash: T -> int) returns (j: nat)
    requires n <= a.Length
    ensures j <= n && Insert(a[..n], x, hash) == a[..j] + [x] + a[j..n]
  {
    j := n;
    ghost var front := a[..n];
    assert front[..n] == front && Insert(front, x, hash) + [] == Insert(front, x, hash);
    while j > 0 && hash(a[j - 1]) > hash(x)
      invariant 0 <= j <= n
      invariant Insert(front, x, hash) == Insert(front[..j], x, hash) + front[j..]
    {
      InsertPasses(front, j, x, hash);
      j := j - 1;
    }
    InsertStops(front[..j], x, hash);
    assert front[..j] == a[..j] && front[j..] == a[j..n];
  }

  lemma InsertPasses<T>(front: seq<T>, j: nat, x: T, hash: T -> int)
    requires 0 < j <= |front| && hash(front[j - 1]) > hash(x)
    ensures Insert(front[..j], x, hash) + front[j..] == Insert(front[..j - 1], x, hash) + front[j - 1..]
  {
    assert front[..j][..j - 1] == front[..j - 1];
    assert [front[j - 1]] + front[j..] == front[j - 1..];
  }

  lemma InsertStops<T>(s: seq<T>, x: T, hash: T -> int)
    requires s == [] || hash(s[|s| - 1]) <= hash(x)
    ensures Insert(s, x, hash) == s + [x]
  {
  }

  /** Moves the element at `n` down to `j`, shifting those between. */
  method Rotate<T>(a: array<T>, j: nat, n: nat)
    requires j <= n < a.Length
    modifies a
    ensures a[..] == old(a[..j]) + [old(a[n])] + old(a[j..n]) + old(a[n + 1..])
  {
    var x, k := a[n], n;
    while k > j
      invariant j <= k <= n
      invariant forall i :: 0 <= i < k ==> a[i] == old(a[i])
      invariant forall i :: k < i <= n ==> a[i] == old(a[i - 1])
      invariant forall i :: n < i < a.Length ==> a[i] == old(a[i])
    {
      a[k] := a[k - 1];
      k := k - 1;
    }
    a[j] := x;
  }

  method InsertInPlace<T>(a: array<T>, n: nat, hash: T -> int)
    requires n < a.Length
    modifies a
    ensures a[..] == Insert(old(a[..n]), old(a[n]), hash) + old(a[n + 1..])
  {
    var j := FindPlace(a, n, a[n], hash);
    Rotate(a, j, n);
  }

  /** What insertion is given at position `n`, and what it makes of the sorted prefix. */
  lemma SortedPrefixGrows<T>(all: seq<T>, was: seq<T>, n: nat, hash: T -> int)
    requires n < |was| && all == Sort(was[..n], hash) + was[n..]
    ensures |all| == |was|
    ensures all[..n] == Sort(was[..n], hash) && all[n] == was[n] && all[n + 1..] == was[n + 1..]
    ensures Sort(was[..n + 1], hash) == Insert(Sort(was[..n], hash), was[n], hash)
  {
    var prefix := was[..n + 1];
    assert prefix[..n] == was[..n] && prefix[n] == was[n];
  }

  /** `sort_by_hash`: a stable sort of the slice in place. */
  method SortByHash<T>(a: array<T>, hash: T -> int)
    modifies a
    ensures a[..] == Sort(old(a[..]), hash)
  {
    ghost var was := a[..];
    for n := 0 to a.Length
      invariant a[..] == Sort(was[..n], hash) + was[n..]
    {
      SortedPrefixGrows(a[..], was, n, hash);
      InsertInPlace(a, n, hash);
    }
    assert was[..a.Length] == was;
  }

  datatype HttpHeader = HttpHeader(name: string, value: string)

  /** An HTTP response as it is handed to the transform. */
  class HttpResponse {
    var status: nat
    var headers: seq<HttpHeader>
    var body: Bytes

    constructor (status: nat, headers: seq<HttpHeader>, body: Bytes)
      ensures this.status == status && this.headers == headers && this.body == body
    {
      this.status, this.headers, this.body := status, headers, body;
    }

    method RedactCollection<T>(codec: Codec<Response<seq<T>>>, hash: T -> int)
      modifies this`body
      ensures body == RedactedCollection(codec, hash, old(body))
    {
      var parsed := codec.parse(body);
      if parsed.None? {
        return;
      }
      var response := parsed.value;
      if response.result.Ok? {
        var items := response.result.value;
        var slice := new T[|items|](i requires 0 <= i < |items| => items[i]);
        assert slice[..] == items;
        SortByHash(slice, hash);
        response := response.(result := Ok(slice[..]));
      }
      body := codec.render(response);
    }

    /** `ResponseTransform::apply`. */
    method Apply<B, L, R, F>(f: Formats<B, L, R, F>, t: ResponseTransform)
      modifies this`body
      ensures body == Transformed(f, t, old(body))
    {
      match t {
        case Block => body := Redacted(f.block, body);
        case LogEntries => RedactCollection(f.logs, f.logHash);
        case TransactionReceipt => body := Redacted(f.receipt, body);
        case FeeHistory => body := Redacted(f.feeHistory, body);
        case SendRawTransaction => body := S.Sanitized(f.sent, f.lower, body);
      }
    }

    /**
     `cleanup_response`. `context` is the transform the context decodes to, if it is present and does: headers always
     go, and only the body of a successful response is rewritten.
     */
    method Cleanup<B, L, R, F>(f: Formats<B, L, R, F>, context: Option<ResponseTransform>)
      modifies this`headers, this`body
      ensures headers == []
      ensures body == if 200 <= status < 300 && context.Some? then Transformed(f, context.value, old(body))
                      else old(body)
    {
      headers := [];
      if 200 <= status < 300 && context.Some? {
        Apply(f, context.value);
      }
    }
  }
}
