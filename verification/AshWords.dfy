/** Facts about bytes in words, away from the functions that use them. */
module AshWords {
  function Pair(h: bv8, l: bv8): bv16 {
    ((h as bv16) << 8) | (l as bv16)
  }

  lemma HighByte(h: bv8, l: bv8)
    ensures Pair(h, l) & 0x8000 != 0 <==> h & 0x80 != 0
    ensures (Pair(h, l) << 1) & 0x8000 != 0 <==> h & 0x40 != 0
    ensures (Pair(h, l) << 1 << 1) & 0x8000 != 0 <==> h & 0x20 != 0
    ensures (Pair(h, l) << 1 << 1 << 1) & 0x8000 != 0 <==> h & 0x10 != 0
    ensures (Pair(h, l) << 1 << 1 << 1 << 1) & 0x8000 != 0 <==> h & 0x08 != 0
    ensures (Pair(h, l) << 1 << 1 << 1 << 1 << 1) & 0x8000 != 0 <==> h & 0x04 != 0
    ensures (Pair(h, l) << 1 << 1 << 1 << 1 << 1 << 1) & 0x8000 != 0 <==> h & 0x02 != 0
    ensures (Pair(h, l) << 1 << 1 << 1 << 1 << 1 << 1 << 1) & 0x8000 != 0 <==> h & 0x01 != 0
    ensures Pair(h, l) << 1 << 1 << 1 << 1 << 1 << 1 << 1 << 1 == Pair(l, 0)
  {
  }

  lemma DataFields(frm: bv8, ack: bv8, reTx: bool)
    ensures var c := ((frm & 0x07) << 4) | (ack & 0x07) | (if reTx then 0x08 else 0);
      && c & 0x80 == 0
      && (c & 0x40 != 0 <==> frm & 0x04 != 0) && (c & 0x20 != 0 <==> frm & 0x02 != 0)
      && (c & 0x10 != 0 <==> frm & 0x01 != 0) && (c & 0x08 != 0 <==> reTx)
      && (c & 0x04 != 0 <==> ack & 0x04 != 0) && (c & 0x02 != 0 <==> ack & 0x02 != 0)
      && (c & 0x01 != 0 <==> ack & 0x01 != 0)
  {
  }
}
