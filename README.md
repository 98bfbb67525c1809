# TokenAuthNr — the token plugin's transfer authenticator, in Dafny

This project models `TokenAuthNr`, the client authenticator of the token plugin. It decides
whether a transfer request (`XFER_PUBLIC`) carries a valid signature for every input it
spends. The model covers these pieces:

- `authenticate`, which dispatches on the transaction type.
- `authenticate_xfer`, the per-input loop. It base58-decodes each input's signature, builds
  that input's signing view, resolves the verkey of the input's address and checks the
  signature. It then admits the request only if every input verified.
- `serializeForSig` and `_get_xfer_ser_data`, the client-side signing view.
- The helpers `getVerkey` and `get_sigs`, and the default verifier `AddressSigVerifier`.

Files:

- `wrappers.dfy`: `Option` and `Result`.
- `txn.dfy`: the request. Its top-level identifier is optional. Each input is an `Entry`:
  either the triple `[address, seqNo, signature]`, or the pair `[address, seqNo]` that
  `inp[:2]` produces (`sig == None`).
- `client_authnr.dfy`: the operations. `AuthenticateXfer` is a method with a loop, proved
  equal to the specification function `XferSpec`.
- `authnr_proofs.dfy`: what the authenticator guarantees:
  - admission is all-or-nothing;
  - the count error is exact;
  - errors are fail-fast, in input order;
  - the registry is never consulted for self-certifying addresses;
  - the client-side and verifier-side views agree exactly when addresses are unique.

The host's collaborators are the fields of the `Host` datatype, so every result holds for any
behaviour of them:

- base58 decoding;
- the Ed25519 `NaclVerifier` and `DidVerifier` constructors;
- `CoreAuthNr.serializeForSig` with its `excluded_from_signing` key set;
- the identity registry behind `CoreAuthNr.getVerkey`;
- `CoreAuthNr.authenticate` for the mint path.

A collaborator that raises is modelled as `None`.

Four behaviours of the code are easy to misread:

- The view verified for an input holds only that input (`token/src/client_authnr.py:53`). It
  does not hold all inputs sharing the input's address. `ViewsAgreeIff` proves that this
  view equals the client-side `_get_xfer_ser_data` view exactly when no other input has the
  same address.
- A successful call returns a list with one address per input, repeats included. It is not a
  deduplicated set.
- Building the verifier from the verkey can itself raise. `AddressSigVerifier` base58-decodes
  the verkey and hands it to `NaclVerifier`. This is modelled as the error `BadVerkey`, which
  is none of the three authentication errors.
- An input that has no signature element makes `b58decode` run on the sequence number. That
  raises, and the raise is caught as `InvalidSignatureFormat`.

The type tags `MINT_PUBLIC = "10000"` and `XFER_PUBLIC = "10001"` come from the plugin's
constants module, which is not part of this model.

## Model

| member | source | states |
|---|---|---|
| `Txn.Cut` | token/src/client_authnr.py:53 | `inp[:2]` keeps the address and seqNo and drops the signature |
| `ClientAuthnr.GetVerkey` | token/src/client_authnr.py:82-86 | a 43- or 44-character identifier is its own verkey; any other length returns the registry's answer, which may be absent |
| `ClientAuthnr.AddressSig` | token/src/client_authnr.py:18-24 | the verifier is exactly `NaclVerifier(b58decode(verkey))`; an undecodable verkey makes construction fail |
| `ClientAuthnr.Keep` | token/src/client_authnr.py:92-93 | every kept entry has the identifier's address and no signature, the list is no longer than the input list, and every matching input appears cut; exactness and order are `KeepStep` and `KeepAppend` |
| `ClientAuthnr.XferSerData` | token/src/client_authnr.py:89-94 | client view: top-level identifier removed, every other operation and top-level field unchanged, input list is `Keep` of the inputs for the identifier (only matching inputs, each cut to (address, seqNo)); a `None` identifier matches nothing |
| `Txn.WithInputs` | token/src/client_authnr.py:92 | overwriting `operation.inputs` changes that list only; identifier, type, outputs, other operation fields and other top-level fields are unchanged |
| `ClientAuthnr.Construct` | token/src/client_authnr.py:63 | `verifier(verkey)` builds the chosen class: `AddressSigVerifier`, `DidVerifier` or a caller-supplied class; an absent result is a raising constructor |
| `ClientAuthnr.SigMessage` | token/src/client_authnr.py:53-56 | the bytes verified for an input are the host serialisation, under the input's address and the excluded keys, of the request without its identifier whose inputs are `[inp[:2]]` |
| `ClientAuthnr.Run` | token/src/client_authnr.py:46-65 | the loop records at most one address per input, and the only errors it raises are per-input ones, never the count error |
| `ClientAuthnr.XferSpec` | token/src/client_authnr.py:43-71 | a normal return holds one address per input; a count error has correct < required, and required is the number of inputs |
| `ClientAuthnr.GetSigs` | token/src/client_authnr.py:96-98 | one (address, signature) pair per input in input order, seqNo dropped; absent when some entry has no signature to unpack |
| `ClientAuthnr.SerializeForSig` | token/src/client_authnr.py:73-80 | mint serialises the message as given; transfer serialises the `_get_xfer_ser_data` view for the identifier; any other type gives nothing |
| `ClientAuthnr.SigView` | token/src/client_authnr.py:44-53 | the per-input view is the request without its identifier, with the input list replaced by that single input cut to (address, seqNo) |
| `ClientAuthnr.Step` | token/src/client_authnr.py:48-65 | per input: an undecodable signature raises `InvalidSignatureFormat` before any lookup; an unresolvable key raises `CouldNotAuthenticate` naming the address; `BadVerkey` exactly when decoding and lookup succeed but the verifier cannot be built; `Checked` exactly when all three succeed, and then the result is the verifier's answer on that input's message, so a failed cryptographic check never raises |
| `ClientAuthnr.RunErrPersists` | token/src/client_authnr.py:47-61 | once an input raises, later inputs cannot change the outcome |
| `ClientAuthnr.AuthenticateXfer` | token/src/client_authnr.py:43-71 | the loop, which overwrites the private copy's input list on each iteration and appends verified addresses, computes exactly `XferSpec` |
| `ClientAuthnr.Authenticate` | token/src/client_authnr.py:33-41 | mint goes to the host authenticator with `DidVerifier` as default; transfer goes to `authenticate_xfer` with `AddressSigVerifier` as default; other types return nothing |
| `AuthnrProofs.VerifiedSnoc` | token/src/client_authnr.py:64-65 | appending an input appends its address to the verified list exactly when its signature verified |
| `AuthnrProofs.VerifiedCount` | token/src/client_authnr.py:64-67 | at most one recorded address per input; one per input exactly when every input verified, and then in input order |
| `AuthnrProofs.RunOk` | token/src/client_authnr.py:46-65 | the loop finishes without raising exactly when no input fails hard, and then it has recorded the verified addresses in order |
| `AuthnrProofs.RunFailFast` | token/src/client_authnr.py:47-61 | the first input that fails hard decides the loop's error |
| `AuthnrProofs.XferAdmitted` | token/src/client_authnr.py:46-71 | `authenticate_xfer` returns exactly when every input's signature verified, and then it returns each input's address, in input order, duplicates included |
| `AuthnrProofs.XferInsufficient` | token/src/client_authnr.py:63-70 | with no hard failure, if k of n signatures verified and k < n, it raises `InsufficientCorrectSignatures(k, n)`; if k = n, it admits |
| `AuthnrProofs.CountErrorOnlyAfterAllInputs` | token/src/client_authnr.py:67-70 | the count error implies every input was processed without a hard failure, and it carries the verified count and the input count, with correct < required |
| `AuthnrProofs.XferFailFast` | token/src/client_authnr.py:47-61 | the first input whose signature does not decode or whose key cannot be resolved decides the error, and no count error is produced |
| `AuthnrProofs.StepIgnoresOtherInputs` | token/src/client_authnr.py:53-56 | the view and message checked for an input do not depend on the request's other inputs |
| `AuthnrProofs.RunIgnoresOtherInputs` | token/src/client_authnr.py:47-56 | the loop over given inputs does not depend on the input list stored in the request |
| `AuthnrProofs.LaterInputsIgnored` | token/src/client_authnr.py:47-61 | inputs after the first hard failure are not examined: replacing them leaves the outcome unchanged |
| `AuthnrProofs.RunIgnoresRegistry` | token/src/client_authnr.py:82-86 | for self-certifying addresses the loop's outcome is independent of the registry |
| `AuthnrProofs.RegistryNeverConsulted` | token/src/client_authnr.py:82-86 | when every input address has 43 or 44 characters, any registry gives the same outcome |
| `AuthnrProofs.AddressIsItsOwnKey` | token/src/client_authnr.py:18-24 | with `AddressSigVerifier`, a self-certifying address is base58-decoded into the Ed25519 key; an undecodable address makes construction raise |
| `AuthnrProofs.AdmittedHasSigs` | token/src/client_authnr.py:96-98 | on an admitted transfer, `get_sigs` succeeds and pairs each returned address with its signature |
| `AuthnrProofs.KeepNone` | token/src/client_authnr.py:92-93 | no matching input gives an empty input list, not an error |
| `AuthnrProofs.KeepAppend` | token/src/client_authnr.py:92-93 | filtering preserves order: the filter of a concatenation is the concatenation of the filters |
| `AuthnrProofs.KeepStep` | token/src/client_authnr.py:92-93 | exact characterisation: each further input adds itself, cut, to the end of the kept list exactly when its address matches, and otherwise adds nothing |
| `AuthnrProofs.KeepUnique` | token/src/client_authnr.py:92-93 | an address owning a single input keeps exactly that input, cut |
| `AuthnrProofs.KeepRepeated` | token/src/client_authnr.py:92-93 | an address owning two inputs keeps at least two entries |
| `AuthnrProofs.ViewsAgreeIff` | token/src/client_authnr.py:89-94 | the per-input view of line 53 equals `_get_xfer_ser_data` for that address exactly when no other input shares the address |
| `AuthnrProofs.ClientSignedTransferAdmitted` | token/src/client_authnr.py:73-80 | with pairwise distinct input addresses, signatures made over `serializeForSig` for each address are accepted by `authenticate_xfer` |
| `AuthnrProofs.RepeatedAddressViewsDiffer` | token/src/client_authnr.py:53 | when two inputs share an address, the view the authenticator verifies differs from the client-side view for that address |

## Left out

- Ed25519 verification, base58 decoding, the host's canonical serialiser with its `excluded_from_signing` set, the identity registry, and `CoreAuthNr.authenticate` for mint are all external libraries or host code. They are fields of `Host` with no properties assumed.
- Non-mutation of the caller's request is not a separate theorem. Requests are immutable values here, and `AuthenticateXfer` updates only its private copy `newData`. The model therefore does not capture aliasing, or the deep copy that prevents it.
- Malformed request shapes are excluded by the types. Examples: a missing `operation` or `type` key, or an input that is not a list.
- Inputs of other lengths are not modelled. An `Entry` is only the triple `[address, seqNo, signature]` or the pair `[address, seqNo]`. The code reads `inp[-1]` as the signature, `inp[:2]` as the signed part and `inp[0]` as the address, and accepts any non-empty list without a shape error:
  - for `[a, s, sig, x]` it decodes `x` as the signature and signs `[a, s]`;
  - for `[a]` it decodes the address itself as the signature and signs `[a]`.
- `Host.coreAuthenticate`: the mint path is opaque. Only the dispatch to it and its arguments are stated.
- `pluginType`, `write_types` and `query_types` are plugin-registration configuration.
- The auth-rule test `sovtokenfees/sovtokenfees/test/auth_map/test_auth_xfer.py` drives a live pool and the role/threshold rule engine. No logic of its own is modelled.
- Determinism of the views is not stated as a lemma. It holds because every view is a Dafny function.
