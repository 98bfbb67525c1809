/**
 * The parsed request the token authenticator works on:
 *   { identifier?: <string>, operation: { type, inputs: [[address, seqNo, signature], ...],
 *     outputs: [...], ... }, <other top-level keys> }
 */
module Txn {
  import opened Wrappers

  type Bytes = seq<bv8>

  /** Transaction type tags of the token plugin (its constants module is not part of this model). */
  const MINT_PUBLIC: string := "10000"
  const XFER_PUBLIC: string := "10001"

  /**
   * One element of `operation.inputs`. A spendable input is the triple
   * [address, seqNo, signature]; `sig == None` is the two-element list
   * [address, seqNo] that signing views carry in its place.
   */
  datatype Entry = Entry(address: string, seqNo: int, sig: Option<string>)

  datatype Output = Output(address: string, amount: int)

  /** `extra` stands for every other key of the operation payload. */
  datatype Operation = Operation(txnType: string, inputs: seq<Entry>, outputs: seq<Output>,
                                 extra: map<string, string>)

  /** `identifier` is the optional top-level submitter; `fields` every other top-level key. */
  datatype Req = Req(identifier: Option<string>, operation: Operation, fields: map<string, string>)

  /** `inp[:2]`: the entry cut down to [address, seqNo]. */
  function Cut(e: Entry): (r: Entry)
    ensures r.address == e.address && r.seqNo == e.seqNo && r.sig == None
  {
    Entry(e.address, e.seqNo, None)
  }

  /** The request with its input list replaced and nothing else touched. */
  function WithInputs(req: Req, xs: seq<Entry>): (r: Req)
    ensures r.operation.inputs == xs
    ensures r.identifier == req.identifier && r.fields == req.fields
    ensures r.operation.txnType == req.operation.txnType
    ensures r.operation.outputs == req.operation.outputs && r.operation.extra == req.operation.extra
  {
    req.(operation := req.operation.(inputs := xs))
  }
}
