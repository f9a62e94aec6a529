/** The encoder and the decoder together: what one writes into a buffer the other reads from it. */
module PbCodec {
  import opened Basics
  import opened Words
  import opened PbWire
  import opened PbMessage
  import opened PbRoundTrip
  import Enc = PbEncode
  import Dec = PbDecode
  import In = PbInput

  /** What the decoder's loop makes of an encoded message */
  function Reread(fs: Fields, slots: seq<Slot>, which: map<nat, nat>): LoopResult
    requires EncodeFields(fs, slots, which).Some?
  {
    DecodeLoop(fs, EncodeFields(fs, slots, which).value, State(Defaults(fs), map[], 0, {}))
  }

  /** Encodes a message into a buffer and decodes what was written.  Encoding fails exactly when the
      message cannot be encoded or does not fit.  Otherwise decoding is undefined only for a number of
      required fields that its last check is not made for; and where it is defined, the message is back
      exactly when all of it can be read, and then the decoder has used up all that was written. */
  method EncodeThenDecode(buf: array<Byte>, fs: Fields, slots: seq<Slot>, which: map<nat, nat>)
    returns (written: bool, size: nat, defined: bool, ok: bool, m: Value, left: nat)
    requires Enc.HoldsAll(fs, slots) && SlotsOk(fs, slots) && FieldsOk(fs) && Dec.FieldsDecodable(fs)
    modifies buf
    ensures written <==> EncodeFields(fs, slots, which).Some? && |EncodeFields(fs, slots, which).value| <= buf.Length
    ensures written ==> (defined <==> !Dec.Undefined(fs, Reread(fs, slots, which)))
    ensures written && SlotsReadable(fs, slots, which) ==> (defined <==> Dec.CountOk(Dec.BitFor(fs, |fs|)))
    ensures written && defined ==>
              (ok && m.Message? && SameMessage(fs, slots, which, m.slots, m.which) <==>
               SlotsReadable(fs, slots, which))
    ensures written && defined && SlotsReadable(fs, slots, which) ==> left == 0
  {
    ok, defined, m, left := false, true, Message(slots, which), 0;
    written, size := Enc.EncodeToBuffer(buf, fs, slots, which);
    if !written {
      return;
    }
    MessageBack(fs, slots, which);
    if SlotsReadable(fs, slots, which) { WholeMessageUndefined(fs, slots, which); }
    var stream := new In.IStream.FromBuffer(buf[..], size);
    assert stream.Input() == EncodeFields(fs, slots, which).value;
    ok, defined, m := Dec.DecodeFresh(stream, fs);
    left := stream.bytesLeft;
  }

  // ---- descriptors whose last check is undefined ----

  /** With 32 required fields, or 64 and more, decoding is undefined for every message that is whole. */
  lemma WholeMessageUndefined(fs: Fields, slots: seq<Slot>, which: map<nat, nat>)
    requires FieldsOk(fs) && SlotsOk(fs, slots) && EncodeFields(fs, slots, which).Some?
    requires SlotsReadable(fs, slots, which)
    ensures Dec.Undefined(fs, Reread(fs, slots, which)) <==> !Dec.CountOk(Dec.BitFor(fs, |fs|))
  {
    MessageBack(fs, slots, which);
    Dec.FirstAreAll(fs, Reread(fs, slots, which).state.seen);
  }

  /** Required 32-bit numbers with the tags 1 to n */
  function Numbers(n: nat): (fs: Fields)
    ensures |fs| == n
    ensures forall i :: 0 <= i < n ==> fs[i] == Field(i + 1, UnsignedKind(4), Required, None)
  {
    seq(n, i requires 0 <= i < n => Field(i + 1, UnsignedKind(4), Required, None))
  }

  function Holding(ns: seq<nat>): (slots: seq<Slot>)
    ensures |slots| == |ns| && forall i :: 0 <= i < |ns| ==> slots[i] == One(false, Number(ns[i]))
  {
    seq(|ns|, i requires 0 <= i < |ns| => One(false, Number(ns[i])))
  }

  lemma {:induction false} AllCounted(n: nat, i: nat)
    requires i <= n
    ensures Dec.BitFor(Numbers(n), i) == i
  {
    if i > 0 { AllCounted(n, i - 1); }
  }

  lemma {:induction false} NumbersEncode(fs: Fields, ns: seq<nat>, slots: seq<Slot>)
    requires |fs| == |ns| == |slots|
    requires forall i :: 0 <= i < |fs| ==> fs[i].kind == UnsignedKind(4) && fs[i].rule.Required?
    requires forall i :: 0 <= i < |ns| ==> ns[i] < TWO32 && slots[i] == One(false, Number(ns[i]))
    ensures EncodeFields(fs, slots, map[]).Some?
  {
    if fs != [] {
      NumbersEncode(fs[1..], ns[1..], slots[1..]);
      var k, v := fs[0].kind, slots[0].value;
      assert FitsUnsigned(v.n, 4) && EncodeValue(k, v) == Some(Varint(v.n));
      assert EncodeField(fs[0], slots[0], map[]) == Tagged(k, fs[0].tag, v);
    }
  }

  /** A message of n required numbers is encoded and can be read again, but decoding it is defined only for
      n below 64 and other than 32.  One of 32 numbers is the smallest that is not. */
  lemma NumbersUndefined(ns: seq<nat>)
    requires |ns| < MAX_TAG && forall i :: 0 <= i < |ns| ==> ns[i] < TWO32
    ensures EncodeFields(Numbers(|ns|), Holding(ns), map[]).Some?
    ensures Dec.Undefined(Numbers(|ns|), Reread(Numbers(|ns|), Holding(ns), map[])) <==> |ns| == 32 || |ns| >= 64
  {
    var fs, slots := Numbers(|ns|), Holding(ns);
    NumbersEncode(fs, ns, slots);
    AllCounted(|ns|, |ns|);
    assert forall i :: 0 <= i < |fs| ==> FieldOk(fs[i]) && SlotOk(fs[i], slots[i]);
    assert SlotsReadable(fs, slots, map[]) by {
      forall i | 0 <= i < |fs| ensures SlotReadable(fs[i], slots[i], map[]) { }
    }
    WholeMessageUndefined(fs, slots, map[]);
  }
}
