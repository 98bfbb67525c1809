/**
 * The token-transfer authenticator `TokenAuthNr` and the `AddressSigVerifier`
 * it uses by default.
 *
 * Everything the authenticator borrows from its host (base58 decoding, the
 * Ed25519 verifier, the canonical signing serialiser, the identity registry
 * and the default single-signer authentication) is a field of `Host`, so
 * every result below is stated for any behaviour of those collaborators.
 */
module ClientAuthnr {
  import opened Wrappers
  import opened Txn

  /** The exceptions the authenticator raises. */
  datatype AuthError =
    | InvalidSignatureFormat
    | CouldNotAuthenticate(msg: string)
    | InsufficientCorrectSignatures(correct: nat, required: nat)
      /** the verifier class raised while being built from the verkey */
    | BadVerkey(verkey: string)

  /** A constructed verifier's `verify(sig, msg)`. */
  type SigCheck = (Bytes, Bytes) -> bool

  /** The `verifier` argument: a class built from a verkey string. */
  datatype VerifierClass =
    | AddressSigVerifier
    | DidVerifier
    | OtherVerifier(make: string -> Option<SigCheck>)

  datatype Host = Host(
    /** `b58decode`; `None` when it raises */
    b58decode: string -> Option<Bytes>,
    /** `NaclVerifier(raw_key)`; `None` when it raises */
    nacl: Bytes -> Option<SigCheck>,
    /** `DidVerifier(verkey)`; `None` when it raises */
    didVerifier: string -> Option<SigCheck>,
    /** `CoreAuthNr.serializeForSig(msg, identifier, topLevelKeysToIgnore)` */
    serialize: (Req, Option<string>, Option<set<string>>) -> Bytes,
    /** `CoreAuthNr.excluded_from_signing` */
    excludedFromSigning: set<string>,
    /** `CoreAuthNr.getVerkey`, the identity-registry lookup */
    registryVerkey: string -> Option<string>,
    /** `CoreAuthNr.authenticate(req, identifier, signature, verifier)` */
    coreAuthenticate: (Req, Option<string>, Option<string>, VerifierClass) -> Result<seq<string>, AuthError>)

  /** Length of a base58 text of a 32-byte key: such an address is its own verkey. */
  predicate SelfCertifying(idr: string) {
    |idr| == 43 || |idr| == 44
  }

  /** `getVerkey`: a 43- or 44-character identifier is its own key; anything else asks the registry. */
  function GetVerkey(h: Host, idr: string): (r: Option<string>)
    ensures SelfCertifying(idr) ==> r == Some(idr)
    ensures !SelfCertifying(idr) ==> r == h.registryVerkey(idr)
  {
    if SelfCertifying(idr) then Some(idr) else h.registryVerkey(idr)
  }

  /** `AddressSigVerifier(verkey)`: the verkey text is base58-decoded into the raw Ed25519 key. */
  function AddressSig(h: Host, verkey: string): (r: Option<SigCheck>)
    ensures h.b58decode(verkey).None? ==> r.None?
    ensures h.b58decode(verkey).Some? ==> r == h.nacl(h.b58decode(verkey).value)
  {
    match h.b58decode(verkey)
    case None => None
    case Some(raw) => h.nacl(raw)
  }

  /** `verifier(verkey)`: construct the chosen verifier class; `None` when the constructor raises. */
  function Construct(h: Host, cls: VerifierClass, verkey: string): (r: Option<SigCheck>)
    ensures cls == AddressSigVerifier ==> r == AddressSig(h, verkey)
    ensures cls == DidVerifier ==> r == h.didVerifier(verkey)
    ensures cls.OtherVerifier? ==> r == cls.make(verkey)
  {
    match cls
    case AddressSigVerifier => AddressSig(h, verkey)
    case DidVerifier => h.didVerifier(verkey)
    case OtherVerifier(make) => make(verkey)
  }

  /** The list comprehension of `_get_xfer_ser_data`: the inputs of `idr`, in order, cut to [address, seqNo]. */
  function Keep(xs: seq<Entry>, idr: Option<string>): (r: seq<Entry>)
    ensures |r| <= |xs|
    ensures forall k :: 0 <= k < |r| ==> Some(r[k].address) == idr && r[k].sig == None
    ensures forall k :: 0 <= k < |xs| && Some(xs[k].address) == idr ==> Cut(xs[k]) in r
  {
    if xs == [] then []
    else (if Some(xs[0].address) == idr then [Cut(xs[0])] else []) + Keep(xs[1..], idr)
  }

  /**
   * `_get_xfer_ser_data(req, idr)`: the client-side signing view for `idr`. The top-level
   * identifier is dropped, only `idr`'s inputs are kept (no match leaves an empty list) and
   * nothing else changes.
   */
  function XferSerData(req: Req, idr: Option<string>): (r: Req)
    ensures r.identifier == None && r.fields == req.fields
    ensures r.operation == req.operation.(inputs := r.operation.inputs)
    ensures |r.operation.inputs| <= |req.operation.inputs|
    ensures forall e :: e in r.operation.inputs ==> Some(e.address) == idr && e.sig == None
    ensures forall e :: e in req.operation.inputs && Some(e.address) == idr ==> Cut(e) in r.operation.inputs
    ensures r.operation.inputs == Keep(req.operation.inputs, idr)
  {
    WithInputs(req.(identifier := None), Keep(req.operation.inputs, idr))
  }

  /** `get_sigs`: (address, signature) per input, in order; `None` where an entry has no signature to unpack. */
  function GetSigs(op: Operation): (r: Option<seq<(string, string)>>)
    ensures r.Some? <==> forall k :: 0 <= k < |op.inputs| ==> op.inputs[k].sig.Some?
    ensures r.Some? ==> |r.value| == |op.inputs|
    ensures r.Some? ==> forall k :: 0 <= k < |op.inputs| ==>
      r.value[k] == (op.inputs[k].address, op.inputs[k].sig.value)
  {
    if forall k :: 0 <= k < |op.inputs| ==> op.inputs[k].sig.Some?
    then Some(seq(|op.inputs|, k requires 0 <= k < |op.inputs| => (op.inputs[k].address, op.inputs[k].sig.value)))
    else None
  }

  /** `serializeForSig`: the bytes a signer `idr` signs; `None` for a type this plugin does not handle. */
  function SerializeForSig(h: Host, msg: Req, idr: Option<string>, ignore: Option<set<string>>): (r: Option<Bytes>)
    ensures r.Some? <==> msg.operation.txnType in {MINT_PUBLIC, XFER_PUBLIC}
    ensures msg.operation.txnType == MINT_PUBLIC ==> r == Some(h.serialize(msg, idr, ignore))
    ensures msg.operation.txnType == XFER_PUBLIC ==> r == Some(h.serialize(XferSerData(msg, idr), idr, ignore))
  {
    if msg.operation.txnType == MINT_PUBLIC then Some(h.serialize(msg, idr, ignore))
    else if msg.operation.txnType == XFER_PUBLIC then Some(h.serialize(XferSerData(msg, idr), idr, ignore))
    else None
  }

  /**
   * The view `authenticate_xfer` builds for one input: the request without its top-level
   * identifier, whose input list is that single input cut to [address, seqNo].
   */
  function SigView(req: Req, inp: Entry): (r: Req)
    ensures r.identifier == None && r.fields == req.fields
    ensures r.operation == req.operation.(inputs := [Cut(inp)])
  {
    WithInputs(req.(identifier := None), [Cut(inp)])
  }

  /** The message verified for an input: its view serialised under the input's own address. */
  function SigMessage(h: Host, req: Req, inp: Entry): (r: Bytes)
    ensures r == h.serialize(req.(identifier := None, operation := req.operation.(inputs := [Cut(inp)])),
                             Some(inp.address), Some(h.excludedFromSigning))
  {
    h.serialize(SigView(req, inp), Some(inp.address), Some(h.excludedFromSigning))
  }

  /** What one iteration of `authenticate_xfer` does: raise, or tell whether the signature verified. */
  datatype StepResult = Fail(err: AuthError) | Checked(valid: bool)

  /**
   * One input: decode its signature (an entry without one makes `b58decode` raise as well),
   * resolve the verkey of its address, build the verifier and check the signature.
   */
  function Step(h: Host, req: Req, v: VerifierClass, inp: Entry): (r: StepResult)
    ensures r == Fail(InvalidSignatureFormat) <==> inp.sig.None? || h.b58decode(inp.sig.value).None?
    ensures r == Fail(CouldNotAuthenticate("Can not find verkey for " + inp.address)) <==>
      inp.sig.Some? && h.b58decode(inp.sig.value).Some? && GetVerkey(h, inp.address).None?
    ensures r.Fail? ==> !r.err.InsufficientCorrectSignatures?
    ensures r.Fail? && r.err.BadVerkey? <==>
      (inp.sig.Some? && h.b58decode(inp.sig.value).Some? && GetVerkey(h, inp.address).Some?
       && Construct(h, v, GetVerkey(h, inp.address).value).None?)
    ensures r.Checked? <==> (inp.sig.Some? && h.b58decode(inp.sig.value).Some?
                             && GetVerkey(h, inp.address).Some?
                             && Construct(h, v, GetVerkey(h, inp.address).value).Some?)
    ensures r.Checked? ==> r.valid == Construct(h, v, GetVerkey(h, inp.address).value).value(
                                         h.b58decode(inp.sig.value).value, SigMessage(h, req, inp))
  {
    if inp.sig.None? then Fail(InvalidSignatureFormat)
    else match h.b58decode(inp.sig.value)
      case None => Fail(InvalidSignatureFormat)
      case Some(sig) =>
        match GetVerkey(h, inp.address)
        case None => Fail(CouldNotAuthenticate("Can not find verkey for " + inp.address))
        case Some(verkey) =>
          match Construct(h, v, verkey)
          case None => Fail(BadVerkey(verkey))
          case Some(check) => Checked(check(sig, SigMessage(h, req, inp)))
  }

  /** The loop over `xs`: the first raised error, or the addresses recorded so far. */
  function Run(h: Host, req: Req, v: VerifierClass, xs: seq<Entry>): (r: Result<seq<string>, AuthError>)
    ensures r.Ok? ==> |r.value| <= |xs|
    ensures r.Err? ==> !r.error.InsufficientCorrectSignatures?
    decreases |xs|
  {
    if xs == [] then Ok([])
    else
      var prev := Run(h, req, v, xs[..|xs| - 1]);
      var last := xs[|xs| - 1];
      if prev.Err? then prev
      else match Step(h, req, v, last)
        case Fail(e) => Err(e)
        case Checked(ok) => Ok(if ok then prev.value + [last.address] else prev.value)
  }

  /** Once the loop has raised, later inputs do not change the outcome. */
  lemma {:induction false} RunErrPersists(h: Host, req: Req, v: VerifierClass, xs: seq<Entry>, k: nat)
    requires k <= |xs| && Run(h, req, v, xs[..k]).Err?
    ensures Run(h, req, v, xs) == Run(h, req, v, xs[..k])
    decreases |xs| - k
  {
    if k < |xs| {
      assert xs[..k + 1][..k] == xs[..k];
      RunErrPersists(h, req, v, xs, k + 1);
    } else {
      assert xs[..k] == xs;
    }
  }

  /** `authenticate_xfer` as a value: the loop, then the all-inputs-signed check. */
  function XferSpec(h: Host, req: Req, v: VerifierClass): (r: Result<seq<string>, AuthError>)
    ensures r.Ok? ==> |r.value| == |req.operation.inputs|
    ensures r.Err? && r.error.InsufficientCorrectSignatures? ==>
      r.error.correct < r.error.required == |req.operation.inputs|
  {
    var n := |req.operation.inputs|;
    match Run(h, req, v, req.operation.inputs)
    case Err(e) => Err(e)
    case Ok(correct) =>
      if |correct| != n then Err(InsufficientCorrectSignatures(|correct|, n)) else Ok(correct)
  }

  /**
   * `authenticate_xfer`. `newData` is the private copy whose input list each iteration
   * overwrites; the caller's request is a value and cannot change.
   */
  method AuthenticateXfer(h: Host, req: Req, v: VerifierClass) returns (r: Result<seq<string>, AuthError>)
    ensures r == XferSpec(h, req, v)
  {
    var newData := req.(identifier := None);
    var correct: seq<string> := [];
    var inputs := req.operation.inputs;
    var i := 0;
    while i < |inputs|
      invariant 0 <= i <= |inputs|
      invariant Run(h, req, v, inputs[..i]) == Ok(correct)
      invariant WithInputs(newData, []) == WithInputs(req.(identifier := None), [])
    {
      var inp := inputs[i];
      assert inputs[..i + 1][..i] == inputs[..i];
      if inp.sig.None? {
        RunErrPersists(h, req, v, inputs, i + 1);
        return Err(InvalidSignatureFormat);
      }
      var decoded := h.b58decode(inp.sig.value);
      if decoded.None? {
        RunErrPersists(h, req, v, inputs, i + 1);
        return Err(InvalidSignatureFormat);
      }
      var sig := decoded.value;
      newData := WithInputs(newData, [Cut(inp)]);
      var idr := inp.address;
      var ser := h.serialize(newData, Some(idr), Some(h.excludedFromSigning));
      var verkey := GetVerkey(h, idr);
      if verkey.None? {
        RunErrPersists(h, req, v, inputs, i + 1);
        return Err(CouldNotAuthenticate("Can not find verkey for " + idr));
      }
      var vr := Construct(h, v, verkey.value);
      if vr.None? {
        RunErrPersists(h, req, v, inputs, i + 1);
        return Err(BadVerkey(verkey.value));
      }
      if vr.value(sig, ser) {
        correct := correct + [idr];
      }
      i := i + 1;
    }
    assert inputs[..i] == inputs;
    if |correct| != |inputs| {
      return Err(InsufficientCorrectSignatures(|correct|, |inputs|));
    }
    return Ok(correct);
  }

  /**
   * `authenticate`: mint requests go to the host with `DidVerifier` as the default verifier,
   * transfers to `authenticate_xfer` with `AddressSigVerifier`; any other type yields `None`.
   */
  method Authenticate(h: Host, req: Req, identifier: Option<string>, signature: Option<string>,
                      verifier: Option<VerifierClass>)
    returns (r: Option<Result<seq<string>, AuthError>>)
    ensures r.Some? <==> req.operation.txnType in {MINT_PUBLIC, XFER_PUBLIC}
    ensures req.operation.txnType == MINT_PUBLIC ==>
      r == Some(h.coreAuthenticate(req, identifier, signature, verifier.GetOr(DidVerifier)))
    ensures req.operation.txnType == XFER_PUBLIC ==>
      r == Some(XferSpec(h, req, verifier.GetOr(AddressSigVerifier)))
  {
    if req.operation.txnType == MINT_PUBLIC {
      return Some(h.coreAuthenticate(req, identifier, signature, verifier.GetOr(DidVerifier)));
    }
    if req.operation.txnType == XFER_PUBLIC {
      var x := AuthenticateXfer(h, req, verifier.GetOr(AddressSigVerifier));
      return Some(x);
    }
    return None;
  }
}
