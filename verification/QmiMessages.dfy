/** Messages as the composers build them, read by the thread that pairs answers. */
module QmiMessages {
  import opened Bytes
  import opened QmiTlv
  import QmiPairing

  /** Every byte of a composed message: the frame type, the length of what follows it, flags,
      service, client, flags, transaction id, message type, length of the TLVs; the TLVs. */
  lemma MessageBytes(qmiType: byte, clientId: int, tid: nat, msgType: nat, payload: seq<byte>)
    requires tid < 0x1_0000 && msgType < 0x1_0000 && |payload| <= WDM_DEFAULT_BUFSIZE
    ensures var m := Message(qmiType, clientId, tid, msgType, payload);
            && |m| == 13 + |payload| && m[13..] == payload
            && m[0] == 0x01 && m[1] == (12 + |payload|) % 256 && m[2] == (12 + |payload|) / 256
            && m[3] == 0x00 && m[4] == qmiType && m[5] == clientId % 256
            && m[6] == 0x00 && m[7] == tid % 256 && m[8] == tid / 256
            && m[9] == msgType % 256 && m[10] == msgType / 256
            && m[11] == |payload| % 256 && m[12] == |payload| / 256
  {
  }

  /** A composed message is one that the pairing thread can read, with the service, the client
      and the transaction id that it was composed for. */
  lemma ComposedIsRead(qmiType: byte, clientId: int, tid: nat, msgType: nat, payload: seq<byte>)
    returns (m: QmiPairing.Message)
    requires qmiType != 0 && tid < 0x1_0000 && msgType < 0x1_0000 && |payload| <= WDM_DEFAULT_BUFSIZE
    ensures m == Message(qmiType, clientId, tid, msgType, payload)
    ensures QmiPairing.QmiType(m) == qmiType && QmiPairing.ClientId(m) == clientId % 256
    ensures QmiPairing.TransactionId(m) == tid
  {
    MessageBytes(qmiType, clientId, tid, msgType, payload);
    hide Message;
    m := Message(qmiType, clientId, tid, msgType, payload);
  }

  /** Two composed messages are taken for request and answer exactly if they have the same
      service, client (as a byte) and transaction id, whatever else is in them. */
  lemma ComposedPairIff(t1: byte, c1: int, tid1: nat, msgType1: nat, payload1: seq<byte>,
                        t2: byte, c2: int, tid2: nat, msgType2: nat, payload2: seq<byte>)
    returns (a: QmiPairing.Message, b: QmiPairing.Message)
    requires t1 != 0 && tid1 < 0x1_0000 && msgType1 < 0x1_0000 && |payload1| <= WDM_DEFAULT_BUFSIZE
    requires t2 != 0 && tid2 < 0x1_0000 && msgType2 < 0x1_0000 && |payload2| <= WDM_DEFAULT_BUFSIZE
    ensures a == Message(t1, c1, tid1, msgType1, payload1) && b == Message(t2, c2, tid2, msgType2, payload2)
    ensures QmiPairing.IsResponse(a, b) <==> t1 == t2 && c1 % 256 == c2 % 256 && tid1 == tid2
  {
    hide Message;
    a := ComposedIsRead(t1, c1, tid1, msgType1, payload1);
    b := ComposedIsRead(t2, c2, tid2, msgType2, payload2);
  }

  /** The bytes of one TLV. */
  lemma TlvBytes(t: Tlv)
    ensures EncodeOne(t) == [t.tag, |t.value| % 256, |t.value| / 256] + t.value
  {
  }

  /** Which TLV a look-up by `GetTLV` is after: for 0x1001, 0x1002 and so on the first, the
      second and so on; for other numbers the first of that type. */
  lemma WantedIs(ts: seq<Tlv>, tlvType: int, k: nat)
    requires k < |ts|
    ensures tlvType > 0x1000 ==> (Wanted(ts, tlvType) == k <==> tlvType == 0x1001 + k)
    ensures tlvType <= 0x1000 ==>
              (Wanted(ts, tlvType) == k <==> ts[k].tag == tlvType && forall i :: 0 <= i < k ==> ts[i].tag != tlvType)
    ensures Wanted(ts, tlvType) == |ts|
            <==> if tlvType > 0x1000 then tlvType > 0x1000 + |ts|
                 else forall i :: 0 <= i < |ts| ==> ts[i].tag != tlvType
  {
  }
}
