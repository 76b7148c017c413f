/** Encoding a message to a buffer and decoding the buffer. */
module ProtoRoundTrip {
  import opened Wrappers
  import opened Varint
  import opened Message
  import opened RoundTrip
  import opened ProtoEncode
  import opened ProtoDecode

  /** `pb_get_encoded_size`, `pb_encode` into a buffer of that size, and `pb_decode` of the buffer. The encoder fills the
      buffer exactly; the decoder succeeds exactly when all lengths are below 2^32 and all strings have terminators, then
      leaves nothing unread and gives the same message. */
  method EncodeThenDecode(fs: seq<Field>, slots: seq<Slot>) returns (sent: Option<seq<Byte>>, back: Option<seq<Slot>>)
    requires WellFormed(fs) && Fits(fs, slots) && ShortMsg(SIZE_64, fs, slots) && ShortLength(TERMINATED, EncMsg(fs, slots))
    ensures sent == EncMsg(fs, slots)
    ensures sent.Some? ==> (back.Some? <==> ShortMsg(READABLE, fs, slots))
    ensures back.Some? ==> sent.Some? && SameMsg(fs, slots, back.value)
  {
    sent, back := None, None;
    var size := EncodedSize(fs, slots);
    if size.None? {
      return;
    }
    var output := new OStream(false, size.value, []);
    var status := EncodeMessage(output, fs, slots);
    if !status.Done? {
      return;
    }
    assert output.out == EncMsg(fs, slots).value;
    sent := Some(output.out);
    MessageRoundTrip(fs, slots);
    var input := new IStream(output.out, 0, |output.out|);
    assert input.Rest() == output.out;
    back := ReadMessage(input, fs);
  }
}
