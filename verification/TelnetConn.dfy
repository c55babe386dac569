/**
 The connection of internal/telnet/conn.go as an object: ReadByte reads on until it
 has a byte of data, and answers what it meets on the way.
 */
module TelnetConn {
  import opened Text
  import opened Telnets

  class Conn {
    /** What the client has sent and nobody has read. */
    var input: Bytes
    var sent: Bytes
    var lastCR: bool
    var refused: set<Refusal>
    var binary: bool
    var width: nat
    var height: nat

    ghost function Value(): State
      reads this
    {
      State(lastCR, refused, binary, width, height, sent)
    }

    constructor (input: Bytes)
      ensures this.input == input && Value() == State(false, {}, false, 80, 24, "")
    {
      this.input, sent, lastCR, refused, binary, width, height := input, "", false, {}, false, 80, 24;
    }

    method Next() returns (ok: bool, b: char)
      modifies this`input
      ensures ok == (old(input) != "")
      ensures ok ==> old(input) == [b] + input
      ensures !ok ==> input == ""
    {
      if input == "" {
        return false, ' ';
      }
      ok, b := true, input[0];
      input := input[1..];
    }

    /** Read on to the next byte of data. The end of the input is an error. */
    method ReadDataByte() returns (ok: bool, b: char)
      modifies this
      ensures var r := ReadByte(old(Value()), old(input));
              if ok then r == Byte(b, Value(), input) else r == End(Value())
    {
      hide ReadCommand;
      while true
        invariant ReadByte(Value(), input) == ReadByte(old(Value()), old(input))
        decreases |input|
      {
        ghost var t := input;
        ok, b := Next();
        if !ok {
          return;
        }
        assert t[1..] == input;
        if b == IAC {
          var data: bool;
          ok, data := ReadControl();
          if !ok {
            return;
          }
          if !data {
            continue;
          }
          lastCR := false;
          return true, IAC;
        }
        if binary {
          lastCR := false;
          return;
        }
        if lastCR {
          lastCR := false;
          if b == '\n' || b == NUL {
            continue;
          }
        }
        lastCR := b == '\r';
        return;
      }
    }

    /** readCommand. */
    method ReadControl() returns (ok: bool, data: bool)
      modifies this
      ensures match ReadCommand(old(Value()), old(input))
              case Escaped(rest) => ok && data && input == rest && Value() == old(Value())
              case Handled(s, rest) => ok && !data && input == rest && Value() == s
              case Broken => !ok && Value() == old(Value())
    {
      hide ReadSub, Negotiated, Subnegotiated;
      ghost var t := input;
      var cmd: char;
      data := false;
      ok, cmd := Next();
      if !ok {
        return;
      }
      assert t[1..] == input;
      if cmd == IAC {
        return true, true;
      } else if IsOption(cmd) {
        ghost var u := input;
        var opt: char;
        ok, opt := Next();
        if ok {
          assert t[1] == opt && t[2..] == input;
          Negotiate(cmd, opt);
        }
      } else if cmd == SB {
        ok := ReadSubneg();
      }
    }

    /** What was asked for is accepted; anything else is refused, once. */
    method Negotiate(cmd: char, opt: char)
      modifies this
      ensures Value() == Negotiated(old(Value()), cmd, opt) && input == old(input)
    {
      var reply: char;
      if cmd == DO {
        if opt == OPT_ECHO || opt == OPT_SGA || (opt == OPT_BINARY && binary) {
          return;
        }
        reply := WONT;
      } else if cmd == WILL {
        if opt == OPT_NAWS || opt == OPT_SGA || (opt == OPT_BINARY && binary) {
          return;
        }
        reply := DONT;
      } else {
        return;
      }
      var key := Refusal(reply, opt);
      if key in refused {
        return;
      }
      refused := refused + {key};
      sent := sent + [IAC, reply, opt];
    }

    method ReadSubneg() returns (ok: bool)
      modifies this
      ensures match ReadSub(old(input), "")
              case Cut => !ok && Value() == old(Value())
              case Whole(buf, rest) => ok && input == rest && Value() == Subnegotiated(old(Value()), buf)
    {
      hide Subnegotiated;
      var buf: Bytes := "";
      while true
        invariant ReadSub(input, buf) == ReadSub(old(input), "")
        invariant Value() == old(Value())
        decreases |input|
      {
        ghost var t := input;
        var b: char;
        ok, b := Next();
        if !ok {
          return;
        }
        assert t[1..] == input;
        if b == IAC {
          var next: char;
          ok, next := Next();
          if !ok {
            return;
          }
          assert t[1] == next && t[2..] == input;
          if next == SE {
            break;
          }
          if next != IAC {
            continue;
          }
        }
        if |buf| < MAX_SUBNEG {
          buf := buf + [b];
        }
      }
      Resize(buf);
    }

    method Resize(buf: Bytes)
      modifies this
      ensures Value() == Subnegotiated(old(Value()), buf) && input == old(input)
    {
      if |buf| >= 5 && buf[0] == OPT_NAWS {
        var w, h := Word(buf[1], buf[2]), Word(buf[3], buf[4]);
        if w > 0 {
          width := Clamp(w, 20, 512);
        }
        if h > 0 {
          height := Clamp(h, 5, 512);
        }
      }
    }

    method SetBinary(on: bool)
      modifies this
      ensures Value() == old(Value()).(
                binary := on,
                sent := old(sent) + [IAC, if on then WILL else WONT, OPT_BINARY, IAC, if on then DO else DONT, OPT_BINARY])
      ensures input == old(input)
    {
      binary := on;
      var will, do := WILL, DO;
      if !on {
        will, do := WONT, DONT;
      }
      sent := sent + [IAC, will, OPT_BINARY, IAC, do, OPT_BINARY];
    }

    method Write(p: Bytes)
      modifies this`sent
      ensures sent == old(sent) + EscapeIac(p)
    {
      hide EscapeIac;
      var out := p;
      if IAC in p {
        out := EscapedCopy(p);
      } else {
        NothingEscaped(p);
      }
      sent := sent + out;
    }
  }

  method EscapedCopy(p: Bytes) returns (out: Bytes)
    ensures out == EscapeIac(p)
  {
    out := "";
    assert p[0..] == p;
    for i := 0 to |p|
      invariant out + EscapeIac(p[i..]) == EscapeIac(p)
    {
      ghost var before := out;
      assert p[i..][1..] == p[i + 1..];
      out := out + [p[i]];
      if p[i] == IAC {
        out := out + [IAC];
        assert before + [IAC] + [IAC] == before + [IAC, IAC];
        Assoc(before, [IAC, IAC], EscapeIac(p[i + 1..]));
      } else {
        Assoc(before, [p[i]], EscapeIac(p[i + 1..]));
      }
    }
    assert out + EscapeIac(p[|p|..]) == out;
  }

  lemma {:induction false} NothingEscaped(p: Bytes)
    requires IAC !in p
    ensures EscapeIac(p) == p
  {
    if p != "" {
      NothingEscaped(p[1..]);
    }
  }
}
