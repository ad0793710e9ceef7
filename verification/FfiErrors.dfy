/** Why the boundary refuses a block: every error, its numbers, and the order of the checks. */
module FfiErrors {
  import opened Wrappers
  import opened Bytes
  import opened Chain
  import opened Codec
  import opened WireFormat
  import opened Engine
  import opened Ffi

  /** The i-th transaction is the first whose data is above 1 MiB. */
  ghost predicate FirstOffender(txs: seq<Transaction>, i: nat) {
    i < |txs| && |txs[i].data| > 1_048_576 && forall k :: 0 <= k < i ==> |txs[k].data| <= 1_048_576
  }

  /** The number is checked first, and only after a block has been applied; then the data, in order. */
  lemma ValidationErrors(b: Block, last: U64)
    ensures var expected, e := (last + 1) % U64_LIMIT, ValidateBlock(b, last);
      && (e == Some(NonMonotonicNumber(expected, b.number)) <==> last > 0 && b.number != expected)
      && (forall i: nat ::
            (e == Some(DataTooLarge(i))
             <==> (last > 0 ==> b.number == expected) && FirstOffender(b.transactions, i)))
      && (e.None? <==> (last > 0 ==> b.number == expected)
                       && forall k :: 0 <= k < |b.transactions| ==> |b.transactions[k].data| <= 1_048_576)
  {
  }

  /** The codes of the Rust side: -1 for an empty or oversized buffer, -2 for one that does not decode, -3 for a
      missing engine or a refusal of the engine. Only an engine that is reached can change. */
  lemma CoreCodes(blake3: Digest, core: Option<State>, data: seq<Byte>)
    ensures var (core', r) := CoreApply(blake3, core, data);
      var sized := 0 < |data| <= 10_485_760;
      var reached := sized && RustDecode(data).Ok? && core.Some?;
      && (r == Err(-1) <==> !sized)
      && (r == Err(-2) <==> sized && RustDecode(data).Err?)
      && (r == Err(-3) <==> sized && RustDecode(data).Ok?
                            && (core.Some? ==> Apply(blake3, core.value, RustDecode(data).value).1.Err?))
      && (r.Err? ==> r.error in {-1, -2, -3})
      && (!reached ==> core' == core)
      && (reached ==> core' == Some(Apply(blake3, core.value, RustDecode(data).value).0))
  {
  }

  /** The error of a call, by the first check that fails: the number, the data, the size of the encoding, the
      engine. The check of the encoding itself and the other codes are never reached. */
  lemma ClientErrors(blake3: Digest, c: Client, b: Block)
    ensures var r, e := ClientApply(blake3, c, b).1, ValidateBlock(b, c.last);
      var size := 53 + 76 * |b.transactions| + DataSize(b.transactions);
      && (e.Some? ==> r == Err(e.value))
      && (e.None? && size > 10_485_760 ==> r == Err(NotSerialized(TooLarge(size))))
      && (e.None? && size <= 10_485_760 ==>
            if c.core.None? then r == Err(CoreFailed(-3))
            else
              match Apply(blake3, c.core.value, b).1
              case Ok(root) => r == Ok(root)
              case Err(_) => r == Err(CoreFailed(-3)))
  {
    SerializesIff(b);
    ApplyReachesEngine(blake3, c, b);
  }
}
