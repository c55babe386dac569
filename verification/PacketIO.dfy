/**
 The loops of internal/ftn/packet.go: WriteTo fills a header array and appends
 to a buffer, ReadPacket consumes a reader. Each is proved against the
 functions of module Packets, which the round-trip lemmas are about.
 */
module PacketIO {
  import opened Text
  import opened Addresses
  import opened Packets

  // ---- writing --------------------------------------------------------------

  method Put(h: array<char>, off: nat, v: int)
    requires off + 1 < h.Length
    modifies h
    ensures h[off] == Lo(v) && h[off + 1] == Hi(v)
    ensures forall i :: 0 <= i < h.Length && i != off && i != off + 1 ==> h[i] == old(h[i])
  {
    h[off] := Lo(v);
    h[off + 1] := Hi(v);
  }

  ghost predicate Unset(h: array<char>, from: nat, to: nat)
    requires to <= h.Length
    reads h
  {
    forall i :: from <= i < to ==> h[i] == NUL
  }

  ghost predicate Matches(h: array<char>, p: Packet, now: Stamp, from: nat, to: nat)
    requires to <= h.Length
    reads h
  {
    forall i :: from <= i < to ==> h[i] == HeaderByte(p, now, i)
  }

  method PutTop(h: array<char>, p: Packet, now: Stamp)
    requires h.Length == HEADER_LEN && Unset(h, 0, 58)
    modifies h
    ensures Matches(h, p, now, 0, 8) && Unset(h, 8, 58)
  {
    var t := StampOf(p.created, now);
    Put(h, 0, p.from.node);
    Put(h, 2, p.to.node);
    Put(h, 4, t.year);
    Put(h, 6, t.month - 1);
  }

  method PutTime(h: array<char>, p: Packet, now: Stamp)
    requires h.Length == HEADER_LEN && Matches(h, p, now, 0, 8) && Unset(h, 8, 58)
    modifies h
    ensures Matches(h, p, now, 0, 18) && Unset(h, 18, 58)
  {
    var t := StampOf(p.created, now);
    Put(h, 8, t.day);
    Put(h, 10, t.hour);
    Put(h, 12, t.minute);
    Put(h, 14, t.second);
  }

  method PutMiddle(h: array<char>, p: Packet, now: Stamp)
    requires h.Length == HEADER_LEN && Matches(h, p, now, 0, 18) && Unset(h, 18, 58)
    modifies h
    ensures Matches(h, p, now, 0, 34) && Unset(h, 34, 58)
  {
    Put(h, 18, PACKET_VERSION);
    Put(h, 20, p.from.net);
    Put(h, 22, p.to.net);
    h[24] := PRODUCT_CODE as char;
    var upper := ToUpper(p.password);
    for k := 0 to 8
      invariant Matches(h, p, now, 0, 26 + k) && Unset(h, 26 + k, 58)
    {
      if k < |upper| {
        h[26 + k] := upper[k];
      }
    }
  }

  method PutZones(h: array<char>, p: Packet, now: Stamp)
    requires h.Length == HEADER_LEN && Matches(h, p, now, 0, 34) && Unset(h, 34, 58)
    modifies h
    ensures Matches(h, p, now, 0, 46) && Unset(h, 46, 58)
  {
    Put(h, 34, p.from.zone);
    Put(h, 36, p.to.zone);
    Put(h, 40, CAP_WORD * 256);
    Put(h, 44, CAP_WORD);
  }

  method PutTail(h: array<char>, p: Packet, now: Stamp)
    requires h.Length == HEADER_LEN && Matches(h, p, now, 0, 46) && Unset(h, 46, 58)
    modifies h
    ensures Matches(h, p, now, 0, 58)
  {
    Put(h, 46, p.from.zone);
    Put(h, 48, p.to.zone);
    Put(h, 50, p.from.point);
    Put(h, 52, p.to.point);
  }

  /** WriteTo: the header, every message, the terminator. */
  method WriteTo(p: Packet, now: Stamp) returns (file: Bytes)
    ensures file == PacketBytes(p, now)
  {
    var h := new char[HEADER_LEN](_ => NUL);
    PutTop(h, p, now);
    PutTime(h, p, now);
    PutMiddle(h, p, now);
    PutZones(h, p, now);
    PutTail(h, p, now);
    assert h[..] == HeaderBytes(p, now);
    var body := WriteMessages(p.messages);
    file := h[..] + body;
  }

  method WriteMessages(ms: seq<PackedMessage>) returns (body: Bytes)
    ensures body == MessagesBytes(ms) + LE(0)
  {
    hide MessageBytes;
    body := "";
    for i := 0 to |ms|
      invariant body + MessagesBytes(ms[i..]) == MessagesBytes(ms)
    {
      var rest := ms[i..];
      assert rest[1..] == ms[i + 1..];
      Assoc(body, MessageBytes(ms[i]), MessagesBytes(ms[i + 1..]));
      var m := EncodeMessage(ms[i]);
      body := body + m;
    }
    body := body + LE(0);
  }

  method EncodeMessage(m: PackedMessage) returns (buf: Bytes)
    ensures buf == MessageBytes(m)
  {
    var date := new char[20](_ => NUL);
    for i := 0 to 20
      invariant forall k :: 0 <= k < 20 ==> date[k] == if k < i && k < |m.dateTime| then m.dateTime[k] else NUL
    {
      if i < |m.dateTime| {
        date[i] := m.dateTime[i];
      }
    }
    date[19] := NUL;
    assert date[..] == DateField(m.dateTime);
    var h := LE(MESSAGE_TYPE) + LE(m.origNode) + LE(m.destNode) + LE(m.origNet) + LE(m.destNet) + LE(m.attr) + LE(m.cost);
    buf := h + date[..];
    assert buf == LE(MESSAGE_TYPE) + Fixed(m);
    Assoc(LE(MESSAGE_TYPE), Fixed(m), NameFields(m));
    FieldsInOrder(buf, m);
    buf := buf + Clip(m.to, MAX_NAME_LEN - 1) + [NUL];
    buf := buf + Clip(m.from, MAX_NAME_LEN - 1) + [NUL];
    buf := buf + Clip(m.subject, MAX_SUBJECT_LEN - 1) + [NUL];
    buf := buf + Remove(m.text, NUL) + [NUL];
  }

  lemma FieldsInOrder(b: Bytes, m: PackedMessage)
    ensures b + Clip(m.to, MAX_NAME_LEN - 1) + [NUL] + Clip(m.from, MAX_NAME_LEN - 1) + [NUL]
            + Clip(m.subject, MAX_SUBJECT_LEN - 1) + [NUL] + Remove(m.text, NUL) + [NUL] == b + NameFields(m)
  {
    FourFields(b, Clip(m.to, MAX_NAME_LEN - 1), Clip(m.from, MAX_NAME_LEN - 1), Clip(m.subject, MAX_SUBJECT_LEN - 1), Remove(m.text, NUL));
  }

  lemma FourFields(b: Bytes, to: Bytes, from: Bytes, subject: Bytes, text: Bytes)
    ensures b + to + [NUL] + from + [NUL] + subject + [NUL] + text + [NUL]
            == b + (to + [NUL] + (from + [NUL] + (subject + [NUL] + (text + [NUL]))))
  {
  }

  // ---- reading --------------------------------------------------------------

  /** The bytes of a file still to be read. */
  class Reader {
    var rest: Bytes

    constructor (data: Bytes)
      ensures rest == data
    {
      rest := data;
    }

    /** io.ReadFull: ok is false when fewer than n bytes are left. */
    method ReadFull(n: nat) returns (b: Bytes, ok: bool)
      modifies this
      ensures ok <==> n <= |old(rest)|
      ensures ok ==> b == old(rest)[..n] && rest == old(rest)[n..]
    {
      ok := n <= |rest|;
      if ok {
        b, rest := rest[..n], rest[n..];
      } else {
        b, rest := rest, "";
      }
    }

    method ReadZField(limit: nat) returns (out: Bytes, err: ReadError)
      modifies this
      ensures ReadZ(old(rest), "", limit) == if err == NoError then Field(out, rest) else NoField(err)
    {
      out := "";
      while true
        invariant ReadZ(rest, out, limit) == ReadZ(old(rest), "", limit)
        decreases |rest|
      {
        if rest == "" {
          return out, Unterminated;
        }
        var c := rest[0];
        rest := rest[1..];
        if c == NUL {
          return out, NoError;
        }
        if |out| >= limit {
          return out, TooLong;
        }
        out := out + [c];
      }
    }

    method Decode() returns (m: PackedMessage, err: ReadError)
      modifies this
      ensures DecodeMessage(old(rest)) == if err == NoError then Decoded(m, rest) else NotDecoded(err)
    {
      m := PackedMessage(0, 0, 0, 0, 0, 0, "", "", "", "", "");
      var h, ok := ReadFull(32);
      if !ok {
        return m, TruncatedHeader;
      }
      m := PackedMessage(Get(h, 0), Get(h, 4), Get(h, 2), Get(h, 6), Get(h, 8), Get(h, 10), TrimNul(h[12..32]), "", "", "", "");
      var to, from, subject, text;
      to, err := ReadZField(MAX_NAME_LEN);
      if err != NoError {
        return;
      }
      from, err := ReadZField(MAX_NAME_LEN);
      if err != NoError {
        return;
      }
      subject, err := ReadZField(MAX_SUBJECT_LEN);
      if err != NoError {
        return;
      }
      text, err := ReadZField(MAX_MESSAGE_TEXT);
      if err != NoError {
        return;
      }
      m := m.(to := to, from := from, subject := subject, text := text);
    }

    method Messages() returns (got: seq<PackedMessage>, err: ReadError)
      modifies this
      ensures Got(got, err) == ReadMessages(old(rest), [])
    {
      hide DecodeMessage;
      got := [];
      while true
        invariant ReadMessages(rest, got) == ReadMessages(old(rest), [])
        decreases |rest|
      {
        ghost var before := rest;
        var kind, ok := ReadFull(2);
        if !ok {
          return got, NoError;
        }
        var k := Get(kind, 0);
        assert k == Get(before, 0);
        if k == 0 {
          return got, NoError;
        }
        if k != MESSAGE_TYPE {
          return got, BadType;
        }
        var m;
        m, err := Decode();
        if err != NoError {
          return got, err;
        }
        got := got + [m];
      }
    }
  }

  method ReadFile(data: Bytes) returns (r: ReadResult)
    ensures r == ReadPacket(data)
  {
    hide ReadMessages, ReadHeader;
    var br := new Reader(data);
    var h, ok := br.ReadFull(HEADER_LEN);
    if !ok {
      return NotPacket;
    }
    if Get(h, 18) != PACKET_VERSION {
      return NotPacket;
    }
    var got, err := br.Messages();
    return Read(ReadHeader(h).(messages := got), err);
  }
}
