/**
 * Escape removal for the LED wire format (src/main.rs:241-261): a byte other
 * than the escape marker stands for itself, and the escape marker followed by
 * a byte x stands for (x + 1) mod 256.
 */
module Stuffing {
  import opened LedTypes

  /** `u8::wrapping_add(1)`. */
  function Inc(x: Byte): (y: Byte)
    ensures y == if x == 0xFF then 0 else x + 1
  {
    (x + 1) % 0x100
  }

  /** The byte the sender puts after an escape marker: (x - 1) mod 256. */
  function Dec(x: Byte): Byte { (x - 1) % 0x100 }

  lemma IncDec(x: Byte)
    ensures Inc(Dec(x)) == x
  {
  }

  /** How un-stuffing a raw run towards a target length ends. */
  datatype Unstuffed =
    | Exhausted                               // input ran out between tokens
    | Dangling                                // input ended right after an escape marker
    | Filled(decoded: seq<Byte>, used: nat)   // target reached after `used` raw bytes

  /**
   * Un-stuff `raw` left to right until `target` bytes are decoded. Once the
   * target is reached nothing further is read.
   */
  function Unstuff(raw: seq<Byte>, target: nat): (u: Unstuffed)
    ensures u.Filled? ==> |u.decoded| == target && target <= u.used <= |raw|
    ensures u.Filled? ==> u.used <= 2 * target
    decreases |raw|
  {
    if target == 0 then Filled([], 0)
    else if |raw| == 0 then Exhausted
    else if raw[0] == ESCAPE then
      if |raw| == 1 then Dangling
      else Extend([Inc(raw[1])], 2, Unstuff(raw[2..], target - 1))
    else Extend([raw[0]], 1, Unstuff(raw[1..], target - 1))
  }

  /** Put `d` (decoded from `n` raw bytes) in front of a successful result; failures pass through. */
  function Extend(d: seq<Byte>, n: nat, u: Unstuffed): (e: Unstuffed)
    ensures e.Filled? <==> u.Filled?
    ensures e.Filled? ==> e.decoded == d + u.decoded && e.used == n + u.used
  {
    match u
    case Filled(d', n') => Filled(d + d', n + n')
    case _ => u
  }

  lemma ExtendExtend(d: seq<Byte>, n: nat, d': seq<Byte>, n': nat, u: Unstuffed)
    ensures Extend(d, n, Extend(d', n', u)) == Extend(d + d', n + n', u)
  {
    if u.Filled? {
      assert d + (d' + u.decoded) == (d + d') + u.decoded;
    }
  }

  lemma ExtendNothing(u: Unstuffed)
    ensures Extend([], 0, u) == u
  {
    if u.Filled? {
      assert [] + u.decoded == u.decoded;
    }
  }

  /**
   * Reading the token at position `i` of `raw`, with `decoded` already read
   * from the `i` bytes before it, in the loop's three cases: a plain byte, an
   * escape pair, and an escape marker as the last byte.
   */
  lemma UnstuffPlainAt(raw: seq<Byte>, i: nat, decoded: seq<Byte>, target: nat)
    requires i < |raw| && |decoded| < target && raw[i] != ESCAPE
    requires Unstuff(raw, target) == Extend(decoded, i, Unstuff(raw[i..], target - |decoded|))
    ensures Unstuff(raw, target)
         == Extend(decoded + [raw[i]], i + 1, Unstuff(raw[i + 1..], target - |decoded| - 1))
  {
    assert raw[i..][1..] == raw[i + 1..];
    ExtendExtend(decoded, i, [raw[i]], 1, Unstuff(raw[i + 1..], target - |decoded| - 1));
  }

  lemma UnstuffPairAt(raw: seq<Byte>, i: nat, decoded: seq<Byte>, target: nat)
    requires i + 1 < |raw| && |decoded| < target && raw[i] == ESCAPE
    requires Unstuff(raw, target) == Extend(decoded, i, Unstuff(raw[i..], target - |decoded|))
    ensures Unstuff(raw, target)
         == Extend(decoded + [Inc(raw[i + 1])], i + 2, Unstuff(raw[i + 2..], target - |decoded| - 1))
  {
    assert raw[i..][2..] == raw[i + 2..];
    ExtendExtend(decoded, i, [Inc(raw[i + 1])], 2, Unstuff(raw[i + 2..], target - |decoded| - 1));
  }

  lemma UnstuffDanglingAt(raw: seq<Byte>, i: nat, decoded: seq<Byte>, target: nat)
    requires i + 1 == |raw| && |decoded| < target && raw[i] == ESCAPE
    requires Unstuff(raw, target) == Extend(decoded, i, Unstuff(raw[i..], target - |decoded|))
    ensures Unstuff(raw, target) == Dangling
  {
    assert raw[i..] == [ESCAPE];
  }

  /**
   * The index loop of `try_parse_packet`: walk `raw`, copying plain bytes and
   * replacing each escape pair by the incremented byte, until `target` bytes
   * are decoded or the input runs out.
   */
  method UnstuffLoop(raw: seq<Byte>, target: nat) returns (u: Unstuffed)
    ensures u == Unstuff(raw, target)
  {
    var decoded: seq<Byte> := [];
    var i := 0;
    ExtendNothing(Unstuff(raw, target));
    while i < |raw| && |decoded| < target
      invariant i <= |raw| && |decoded| <= target
      invariant Unstuff(raw, target) == Extend(decoded, i, Unstuff(raw[i..], target - |decoded|))
      decreases |raw| - i
    {
      if raw[i] == ESCAPE {
        if i + 1 >= |raw| {
          UnstuffDanglingAt(raw, i, decoded, target);
          return Dangling;
        }
        UnstuffPairAt(raw, i, decoded, target);
        decoded := decoded + [Inc(raw[i + 1])];
        i := i + 2;
      } else {
        UnstuffPlainAt(raw, i, decoded, target);
        decoded := decoded + [raw[i]];
        i := i + 1;
      }
    }
    if |decoded| < target {
      UnstuffExhaustedAt(raw, i, decoded, target);
      return Exhausted;
    }
    UnstuffFilledAt(raw, i, decoded, target);
    return Filled(decoded, i);
  }

  /** The loop ran out of input before reaching the target. */
  lemma UnstuffExhaustedAt(raw: seq<Byte>, i: nat, decoded: seq<Byte>, target: nat)
    requires i == |raw| && |decoded| < target
    requires Unstuff(raw, target) == Extend(decoded, i, Unstuff(raw[i..], target - |decoded|))
    ensures Unstuff(raw, target) == Exhausted
  {
    assert raw[i..] == [];
  }

  /** The loop reached the target. */
  lemma UnstuffFilledAt(raw: seq<Byte>, i: nat, decoded: seq<Byte>, target: nat)
    requires i <= |raw| && |decoded| == target
    requires Unstuff(raw, target) == Extend(decoded, i, Unstuff(raw[i..], target - |decoded|))
    ensures Unstuff(raw, target) == Filled(decoded, i)
  {
    assert decoded + [] == decoded;
  }

  /** Bytes after the target is reached are never looked at. */
  lemma {:induction false} UnstuffPrefixStable(raw: seq<Byte>, tail: seq<Byte>, target: nat)
    requires Unstuff(raw, target).Filled?
    ensures Unstuff(raw + tail, target) == Unstuff(raw, target)
    decreases |raw|
  {
    if target > 0 {
      if raw[0] == ESCAPE {
        assert (raw + tail)[2..] == raw[2..] + tail;
        UnstuffPrefixStable(raw[2..], tail, target - 1);
      } else {
        assert (raw + tail)[1..] == raw[1..] + tail;
        UnstuffPrefixStable(raw[1..], tail, target - 1);
      }
    }
  }

  /** A run without escape markers decodes to itself. */
  lemma {:induction false} UnstuffLiteral(raw: seq<Byte>, target: nat)
    requires target <= |raw|
    requires forall k :: 0 <= k < target ==> raw[k] != ESCAPE
    ensures Unstuff(raw, target) == Filled(raw[..target], target)
    decreases target
  {
    if target > 0 {
      UnstuffLiteral(raw[1..], target - 1);
      assert [raw[0]] + raw[1..][..target - 1] == raw[..target];
    }
  }

  /** An escape marker arriving where a token should start leaves the decode dangling. */
  lemma {:induction false} ExhaustedThenEscapeDangles(raw: seq<Byte>, target: nat)
    requires Unstuff(raw, target).Exhausted?
    ensures Unstuff(raw + [ESCAPE], target).Dangling?
    decreases |raw|
  {
    if |raw| == 0 {
      assert raw + [ESCAPE] == [ESCAPE];
    } else if raw[0] == ESCAPE {
      assert (raw + [ESCAPE])[2..] == raw[2..] + [ESCAPE];
      ExhaustedThenEscapeDangles(raw[2..], target - 1);
    } else {
      assert (raw + [ESCAPE])[1..] == raw[1..] + [ESCAPE];
      ExhaustedThenEscapeDangles(raw[1..], target - 1);
    }
  }

  /** The wire form of one payload byte. */
  function Token(x: Byte, escaped: set<Byte>): seq<Byte> {
    if x in escaped then [ESCAPE, Dec(x)] else [x]
  }

  /**
   * The sender's side: every byte in `escaped` goes out as the escape marker
   * followed by the byte minus one; every other byte goes out as itself.
   */
  function Stuff(payload: seq<Byte>, escaped: set<Byte>): (wire: seq<Byte>)
    ensures |payload| <= |wire| <= 2 * |payload|
  {
    if payload == [] then []
    else Token(payload[0], escaped) + Stuff(payload[1..], escaped)
  }

  /** The bytes a sender must disguise: both markers. */
  const WIRE_ESCAPED: set<Byte> := {FRAMING, ESCAPE}

  /** The stuffed payload, followed by `tail`, is its first token followed by the rest. */
  lemma StuffCons(payload: seq<Byte>, escaped: set<Byte>, tail: seq<Byte>)
    requires payload != []
    ensures Stuff(payload, escaped) + tail
         == Token(payload[0], escaped) + (Stuff(payload[1..], escaped) + tail)
  {
  }

  /** Un-stuffing reads one token and carries on after it. */
  lemma UnstuffToken(x: Byte, escaped: set<Byte>, rest: seq<Byte>, n: nat)
    requires ESCAPE in escaped
    ensures Unstuff(Token(x, escaped) + rest, n + 1) == Extend([x], |Token(x, escaped)|, Unstuff(rest, n))
  {
    var w := Token(x, escaped) + rest;
    if x in escaped {
      assert w[2..] == rest;
      IncDec(x);
    } else {
      assert w[1..] == rest;
    }
  }

  /** Un-stuffing undoes stuffing, whatever follows, as long as the escape marker itself is escaped. */
  lemma {:induction false} UnstuffStuffed(payload: seq<Byte>, escaped: set<Byte>, tail: seq<Byte>)
    requires ESCAPE in escaped
    ensures Unstuff(Stuff(payload, escaped) + tail, |payload|)
         == Filled(payload, |Stuff(payload, escaped)|)
    decreases |payload|
  {
    if payload != [] {
      UnstuffStuffed(payload[1..], escaped, tail);
      UnstuffStuffedCons(payload, escaped, tail);
    }
  }

  lemma UnstuffStuffedCons(payload: seq<Byte>, escaped: set<Byte>, tail: seq<Byte>)
    requires ESCAPE in escaped && payload != []
    requires Unstuff(Stuff(payload[1..], escaped) + tail, |payload| - 1)
          == Filled(payload[1..], |Stuff(payload[1..], escaped)|)
    ensures Unstuff(Stuff(payload, escaped) + tail, |payload|) == Filled(payload, |Stuff(payload, escaped)|)
  {
    StuffCons(payload, escaped, tail);
    UnstuffTokenThen(payload[0], escaped, Stuff(payload[1..], escaped), tail, payload[1..]);
    assert [payload[0]] + payload[1..] == payload;
  }

  /** One more token in front of a decodable run decodes to one more byte. */
  lemma UnstuffTokenThen(x: Byte, escaped: set<Byte>, r: seq<Byte>, tail: seq<Byte>, rest: seq<Byte>)
    requires ESCAPE in escaped
    requires Unstuff(r + tail, |rest|) == Filled(rest, |r|)
    ensures Unstuff(Token(x, escaped) + (r + tail), |rest| + 1) == Filled([x] + rest, |Token(x, escaped) + r|)
  {
    UnstuffToken(x, escaped, r + tail, |rest|);
  }

  /** Any strict prefix of a stuffed payload is too short to decode it. */
  lemma {:induction false} StuffedPrefixIncomplete(payload: seq<Byte>, escaped: set<Byte>, m: nat)
    requires ESCAPE in escaped
    requires m < |Stuff(payload, escaped)|
    ensures !Unstuff(Stuff(payload, escaped)[..m], |payload|).Filled?
    decreases |payload|
  {
    if m > 0 {
      var x := payload[0];
      var t := Token(x, escaped);
      var rest := Stuff(payload[1..], escaped);
      assert Stuff(payload, escaped) == t + rest;
      if m < |t| {
        assert Stuff(payload, escaped)[..m] == [ESCAPE];
      } else {
        PrefixPastToken(t, rest, m);
        StuffedPrefixIncomplete(payload[1..], escaped, m - |t|);
        UnstuffToken(x, escaped, rest[..m - |t|], |payload| - 1);
      }
    }
  }

  lemma PrefixPastToken(t: seq<Byte>, rest: seq<Byte>, m: nat)
    requires |t| <= m <= |t| + |rest|
    ensures (t + rest)[..m] == t + rest[..m - |t|]
  {
  }

  /** With both markers escaped (and 0xE1 not escaped, which would leave 0xE0), no frame marker appears on the wire. */
  lemma {:induction false} StuffedAvoidsFraming(payload: seq<Byte>, escaped: set<Byte>)
    requires FRAMING in escaped && ESCAPE in escaped && Inc(FRAMING) !in escaped
    ensures FRAMING !in Stuff(payload, escaped)
    decreases |payload|
  {
    if payload != [] {
      StuffedAvoidsFraming(payload[1..], escaped);
      if payload[0] in escaped {
        assert Dec(payload[0]) != FRAMING by {
          if Dec(payload[0]) == FRAMING { IncDec(payload[0]); }
        }
      }
    }
  }
}
