/**
 Making the replies to `eth_sendRawTransaction` comparable: the error classifiers of four Ethereum clients and the
 rewriting of a reply (`sanitize_send_raw_transaction_result`).
 */
module SendRawTransaction {
  import opened Common
  import opened HexCodec
  import opened JsonRpc

  datatype SendRawTransactionError = AlreadyKnown | InsufficientFunds | NonceTooLow | NonceTooHigh

  datatype SendRawTransactionResult = Success | Underfunded | TooLow | TooHigh

  predicate OccursAt(s: string, pattern: string, i: nat) {
    i + |pattern| <= |s| && s[i..i + |pattern|] == pattern
  }

  predicate Contains(s: string, pattern: string) {
    exists i :: 0 <= i <= |s| && OccursAt(s, pattern, i)
  }

  lemma ContainsExactly(s: string, pattern: string)
    ensures Contains(s, pattern) <==> exists before, after :: s == before + pattern + after
  {
    if i :| 0 <= i <= |s| && OccursAt(s, pattern, i) {
      assert s == s[..i] + pattern + s[i + |pattern|..];
    }
    if before, after :| s == before + pattern + after {
      assert OccursAt(s, pattern, |before|);
    }
  }

  /** A classifier, given the error code and the message in lower case. */
  type Classifier = (int, string) -> Option<SendRawTransactionError>

  function GoEthereum(code: int, msg: string): Option<SendRawTransactionError> {
    if code != -32_000 then None
    else if Contains(msg, "already known") then Some(AlreadyKnown)
    else if Contains(msg, "insufficient funds") then Some(InsufficientFunds)
    else if Contains(msg, "nonce too low") then Some(NonceTooLow)
    else if Contains(msg, "nonce too high") then Some(NonceTooHigh)
    else None
  }

  function Nethermind(code: int, msg: string): Option<SendRawTransactionError> {
    if code != -32_010 then None
    else if Contains(msg, "AlreadyKnown") then Some(AlreadyKnown)
    else if Contains(msg, "InsufficientFunds") then Some(InsufficientFunds)
    else if Contains(msg, "OldNonce") then Some(NonceTooLow)
    else if Contains(msg, "NonceGap") then Some(NonceTooHigh)
    else None
  }

  function Erigon(code: int, msg: string): Option<SendRawTransactionError> {
    if code != -32_000 then None
    else if Contains(msg, "already known") then Some(AlreadyKnown)
    else if Contains(msg, "insufficient funds") then Some(InsufficientFunds)
    else if Contains(msg, "nonce too low") then Some(NonceTooLow)
    else None
  }

  function Besu(code: int, msg: string): Option<SendRawTransactionError> {
    if code == -32_000 && Contains(msg, "known transaction") then Some(AlreadyKnown)
    else if code == -32_000 && Contains(msg, "out of gas") then Some(InsufficientFunds)
    else if code == -32_001 && Contains(msg, "nonce too low") then Some(NonceTooLow)
    else if code == -32_006 && Contains(msg, "nonce too high") then Some(NonceTooHigh)
    else None
  }

  /** `find_map` over the classifiers. */
  function FirstMatch(parsers: seq<Classifier>, code: int, msg: string): Option<SendRawTransactionError> {
    if parsers == [] then None
    else if parsers[0](code, msg).Some? then parsers[0](code, msg)
    else FirstMatch(parsers[1..], code, msg)
  }

  const PARSERS: seq<Classifier> := [GoEthereum, Nethermind, Erigon, Besu]

  /** Lower-casing is Unicode's; all that matters of it is that no ASCII capital survives. */
  ghost predicate LowersCapitals(lower: string -> string) {
    forall s, i :: 0 <= i < |lower(s)| ==> !('A' <= lower(s)[i] <= 'Z')
  }

  /** `Parser`: each classifier lower-cases the message before looking into it. */
  function Classify(lower: string -> string, code: int, message: string): Option<SendRawTransactionError> {
    FirstMatch(PARSERS, code, lower(message))
  }

  lemma CapitalNeverFound(msg: string, pattern: string, k: nat)
    requires forall i :: 0 <= i < |msg| ==> !('A' <= msg[i] <= 'Z')
    requires k < |pattern| && 'A' <= pattern[k] <= 'Z'
    ensures !Contains(msg, pattern)
  {
    forall i | 0 <= i <= |msg| ensures !OccursAt(msg, pattern, i) {
      if i + |pattern| <= |msg| {
        assert msg[i..i + |pattern|][k] == msg[i + k];
      }
    }
  }

  /** The Nethermind classifier never recognises anything: its patterns have capitals, and messages no longer do. */
  lemma NethermindNeverMatches(lower: string -> string, code: int, message: string)
    requires LowersCapitals(lower)
    ensures Nethermind(code, lower(message)) == None
  {
    var msg := lower(message);
    CapitalNeverFound(msg, "AlreadyKnown", 0);
    CapitalNeverFound(msg, "InsufficientFunds", 0);
    CapitalNeverFound(msg, "OldNonce", 0);
    CapitalNeverFound(msg, "NonceGap", 0);
  }

  /**
   The four classifiers in a row answer as Go-Ethereum's followed by Besu's: Nethermind's never matches, and whatever
   Erigon's recognises, Go-Ethereum's recognised alike.
   */
  lemma ChainIsGoEthereumThenBesu(lower: string -> string, code: int, message: string)
    requires LowersCapitals(lower)
    ensures Classify(lower, code, message)
         == if GoEthereum(code, lower(message)).Some? then GoEthereum(code, lower(message))
            else Besu(code, lower(message))
    ensures Erigon(code, lower(message)).Some? ==> Erigon(code, lower(message)) == GoEthereum(code, lower(message))
  {
    NethermindNeverMatches(lower, code, message);
    var msg := lower(message);
    assert PARSERS[1..] == [Nethermind, Erigon, Besu];
    assert PARSERS[1..][1..] == [Erigon, Besu];
    assert PARSERS[1..][1..][1..] == [Besu];
    assert PARSERS[1..][1..][1..][1..] == [];
    assert FirstMatch([], code, msg) == None;
    assert FirstMatch(PARSERS[1..][1..][1..], code, msg) == Besu(code, msg);
    assert FirstMatch(PARSERS[1..][1..], code, msg)
        == if Erigon(code, msg).Some? then Erigon(code, msg) else Besu(code, msg);
    assert FirstMatch(PARSERS[1..], code, msg) == FirstMatch(PARSERS[1..][1..], code, msg);
  }

  /** When an error is taken to mean that the transaction is already known. */
  lemma AlreadyKnownIff(lower: string -> string, code: int, message: string)
    requires LowersCapitals(lower)
    ensures
      var msg := lower(message);
      Classify(lower, code, message) == Some(AlreadyKnown)
      <==> code == -32_000
           && (Contains(msg, "already known")
               || (Contains(msg, "known transaction") && !Contains(msg, "insufficient funds")
                   && !Contains(msg, "nonce too low") && !Contains(msg, "nonce too high")))
  {
    ChainIsGoEthereumThenBesu(lower, code, message);
  }

  /** When it is taken to mean one of the other three failures. */
  lemma OtherClassesIff(lower: string -> string, code: int, message: string)
    requires LowersCapitals(lower)
    ensures
      var msg := lower(message);
      var kind := Classify(lower, code, message);
      var low, high := Contains(msg, "nonce too low"), Contains(msg, "nonce too high");
      var known, funds := Contains(msg, "already known"), Contains(msg, "insufficient funds");
      var besuKnown, gas := Contains(msg, "known transaction"), Contains(msg, "out of gas");
      && (kind == Some(InsufficientFunds) <==>
            code == -32_000 && !known && (funds || (gas && !low && !high && !besuKnown)))
      && (kind == Some(NonceTooLow) <==> low && (code == -32_001 || (code == -32_000 && !known && !funds)))
      && (kind == Some(NonceTooHigh) <==> high && (code == -32_006 || (code == -32_000 && !known && !funds && !low)))
  {
    ChainIsGoEthereumThenBesu(lower, code, message);
  }

  /** A transaction hash in JSON: a string of "0x" and 64 hex digits. */
  function ParseHash(text: string): Option<Bytes> {
    match Parse(Fixed(32), text)
    case Ok(b) => Some(b)
    case Err(_) => None
  }

  /** The name a result is serialised as. */
  function Name(r: SendRawTransactionResult): string {
    match r
    case Success => "Ok"
    case Underfunded => "InsufficientFunds"
    case TooLow => "NonceTooLow"
    case TooHigh => "NonceTooHigh"
  }

  function ToResult(e: SendRawTransactionError): SendRawTransactionResult {
    match e
    case AlreadyKnown => Success
    case InsufficientFunds => Underfunded
    case NonceTooLow => TooLow
    case NonceTooHigh => TooHigh
  }

  /**
   A body read as a response whose result is a hash. `codec` reads responses whose result is any string; a result
   that is not a hash makes the whole body unreadable.
   */
  function ReadHashResponse(codec: Codec<Response<string>>, body: Bytes): Option<Response<string>> {
    match codec.parse(body)
    case None => None
    case Some(response) =>
      if response.result.Ok? && ParseHash(response.result.value).None? then None else Some(response)
  }

  /** What a readable response is rewritten to. */
  function Verdict(lower: string -> string, result: Result<string, ErrorObject>): Result<string, ErrorObject> {
    match result
    case Ok(_) => Ok(Name(Success))
    case Err(e) =>
      match Classify(lower, e.code, e.message)
      case Some(known) => Ok(Name(ToResult(known)))
      case None => Err(e)
  }

  /** Each name is written for its own class only, success for a hash as well; an unrecognised error stays itself. */
  lemma VerdictNames(lower: string -> string, result: Result<string, ErrorObject>)
    ensures
      var kind := if result.Ok? then Some(AlreadyKnown) else Classify(lower, result.error.code, result.error.message);
      var verdict := Verdict(lower, result);
      && (verdict == Ok("Ok") <==> kind == Some(AlreadyKnown))
      && (verdict == Ok("InsufficientFunds") <==> kind == Some(InsufficientFunds))
      && (verdict == Ok("NonceTooLow") <==> kind == Some(NonceTooLow))
      && (verdict == Ok("NonceTooHigh") <==> kind == Some(NonceTooHigh))
      && (verdict == result && result.Err? <==> kind == None)
  {
    assert |"Ok"| == 2 && |"InsufficientFunds"| == 17 && |"NonceTooLow"| == 11 && |"NonceTooHigh"| == 12;
  }

  /** `sanitize_send_raw_transaction_result`. */
  function Sanitized(codec: Codec<Response<string>>, lower: string -> string, body: Bytes): Bytes {
    match ReadHashResponse(codec, body)
    case None => body
    case Some(response) => codec.render(Response(response.id, Verdict(lower, response.result)))
  }

  lemma NamesAreNotHashes(r: SendRawTransactionResult)
    ensures ParseHash(Name(r)) == None
  {
    assert Name(r)[0] != "0x"[0];
  }

  /**
   Two readable bodies are rewritten to the same bytes exactly when they answer the same request and have the same
   verdict.
   */
  lemma SameBytesIff(codec: Codec<Response<string>>, lower: string -> string, a: Bytes, b: Bytes)
    requires RoundTrips(codec)
    requires ReadHashResponse(codec, a).Some? && ReadHashResponse(codec, b).Some?
    ensures
      var x, y := ReadHashResponse(codec, a).value, ReadHashResponse(codec, b).value;
      Sanitized(codec, lower, a) == Sanitized(codec, lower, b)
      <==> x.id == y.id && Verdict(lower, x.result) == Verdict(lower, y.result)
  {
    var x, y := ReadHashResponse(codec, a).value, ReadHashResponse(codec, b).value;
    PrintInjective(codec, Response(x.id, Verdict(lower, x.result)), Response(y.id, Verdict(lower, y.result)));
  }

  /** "0x" and 64 hex digits. */
  ghost predicate IsHash(text: string) {
    && |text| == 66 && text[0] == '0' && text[1] == 'x'
    && forall i :: 2 <= i < 66 ==> IsHexDigit(text[i])
  }

  lemma HashParses(text: string)
    ensures ParseHash(text).Some? <==> IsHash(text)
  {
    ParseAcceptsIff(Fixed(32), text);
    if |text| == 66 && "0x" <= text {
      assert forall i :: 2 <= i < 66 ==> text[i] == text[2..][i - 2];
    }
  }

  /** A reply that means the transaction reached the network: a hash, or an error classed as already known. */
  ghost predicate MeansSent(codec: Codec<Response<string>>, lower: string -> string, id: Id, body: Bytes) {
    && codec.parse(body).Some?
    && var response := codec.parse(body).value;
       && response.id == id
       && (response.result.Ok? ==> IsHash(response.result.value))
       && (response.result.Err? ==>
             Classify(lower, response.result.error.code, response.result.error.message) == Some(AlreadyKnown))
  }

  /**
   Convergence: exactly the replies that mean the transaction was sent, and the common form itself, become the
   common form. So replicas that saw success and replicas that saw "already known" agree, and no other reply joins
   them.
   */
  lemma SentConverges(codec: Codec<Response<string>>, lower: string -> string, id: Id, body: Bytes)
    requires RoundTrips(codec)
    ensures
      var common := codec.render(Response(id, Ok("Ok")));
      Sanitized(codec, lower, body) == common <==> MeansSent(codec, lower, id, body) || body == common
  {
    var common := codec.render(Response(id, Ok(Name(Success))));
    NamesAreNotHashes(Success);
    if codec.parse(body).Some? && codec.parse(body).value.result.Ok? {
      HashParses(codec.parse(body).value.result.value);
    }
    if ReadHashResponse(codec, body).Some? {
      var response := ReadHashResponse(codec, body).value;
      PrintInjective(codec, Response(response.id, Verdict(lower, response.result)), Response(id, Ok(Name(Success))));
    }
  }

  /**
   What a sanitised body says. A readable one keeps its identifier and says the verdict; one that does not parse, or
   whose result is not a hash, is left alone.
   */
  lemma SanitizedExactly(codec: Codec<Response<string>>, lower: string -> string, body: Bytes)
    requires RoundTrips(codec)
    ensures codec.parse(body).None? ==> Sanitized(codec, lower, body) == body
    ensures codec.parse(body).Some? ==>
        var response := codec.parse(body).value;
        if response.result.Ok? && !IsHash(response.result.value) then Sanitized(codec, lower, body) == body
        else codec.parse(Sanitized(codec, lower, body)) == Some(Response(response.id, Verdict(lower, response.result)))
  {
    if codec.parse(body).Some? {
      var response := codec.parse(body).value;
      if response.result.Ok? {
        HashParses(response.result.value);
      }
      var after := Response(response.id, Verdict(lower, response.result));
      assert codec.parse(codec.render(after)) == Some(after);
    }
  }

  /** Sanitising twice changes nothing more. */
  lemma SanitizingIdempotent(codec: Codec<Response<string>>, lower: string -> string, body: Bytes)
    requires RoundTrips(codec)
    ensures Sanitized(codec, lower, Sanitized(codec, lower, body)) == Sanitized(codec, lower, body)
  {
    if ReadHashResponse(codec, body).Some? {
      var response := ReadHashResponse(codec, body).value;
      var once := Response(response.id, Verdict(lower, response.result));
      assert codec.parse(codec.render(once)) == Some(once);
      if once.result.Ok? {
        NamesAreNotHashes(match response.result
                          case Ok(_) => Success
                          case Err(e) => ToResult(Classify(lower, e.code, e.message).value));
      }
    }
  }
}
