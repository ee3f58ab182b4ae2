/** Decimal numbers in text, as std::to_string writes and std::stoi reads them. */
module Decimals {
  import opened Results
  import opened Framing

  const ZERO: Byte := 48

  const INT_MAX: int := 0x7FFF_FFFF

  function Digit(d: nat): Byte
    requires d < 10
  {
    48 + d
  }

  function Decimal(n: nat): (s: Bytes)
    ensures s != []
  {
    if n < 10 then [Digit(n)] else Decimal(n / 10) + [Digit(n % 10)]
  }

  predicate IsDigit(b: Byte)
  {
    48 <= b < 58
  }

  ghost predicate AllDigits(s: Bytes)
  {
    forall k :: 0 <= k < |s| ==> IsDigit(s[k])
  }

  function Value(s: Bytes): int
  {
    if s == [] then 0 else Value(s[..|s| - 1]) * 10 + (s[|s| - 1] as int - 48)
  }

  function DigitsOf(s: Bytes): Bytes
  {
    if s == [] || !IsDigit(s[0]) then [] else [s[0]] + DigitsOf(s[1..])
  }

  predicate IsSpace(b: Byte)
  {
    b == 32 || 9 <= b <= 13
  }

  function Unsigned(s: Bytes): Option<int>
  {
    var d := DigitsOf(s);
    if d == [] then None else Some(Value(d))
  }

  /** std::stoi: spaces, a sign, digits; anything after the digits is ignored. */
  function Stoi(s: Bytes): Option<int>
  {
    if s == [] then None
    else if IsSpace(s[0]) then Stoi(s[1..])
    else
      var minus := s[0] == 45;
      var u := Unsigned(if minus || s[0] == 43 then s[1..] else s);
      if u.None? then None
      else
        var v := if minus then -u.value else u.value;
        if -INT_MAX - 1 <= v <= INT_MAX then Some(v) else None
  }

  lemma {:induction false} DecimalDigits(n: nat)
    ensures AllDigits(Decimal(n)) && Value(Decimal(n)) == n
    ensures |Decimal(n)| == 1 <==> n < 10
  {
    if n >= 10 {
      var front := Decimal(n / 10);
      DecimalDigits(n / 10);
      assert Decimal(n)[..|front|] == front;
      assert n == (n / 10) * 10 + n % 10;
    } else {
      assert Decimal(n)[..0] == [];
    }
  }

  lemma {:induction false} ShortDecimal(n: nat)
    requires n < 10000
    ensures |Decimal(n)| <= 4
  {
    assert |Decimal(n / 10 / 10 / 10)| <= 1;
    assert |Decimal(n / 10 / 10)| <= 2;
    assert |Decimal(n / 10)| <= 3;
  }

  lemma {:induction false} DigitsOfAll(s: Bytes)
    requires AllDigits(s)
    ensures DigitsOf(s) == s
  {
    if s != [] {
      DigitsOfAll(s[1..]);
      assert s == [s[0]] + s[1..];
    }
  }

  lemma {:induction false} StoiDigits(s: Bytes)
    requires s != [] && AllDigits(s) && 0 <= Value(s) <= INT_MAX
    ensures Stoi(s) == Some(Value(s))
  {
    DigitsOfAll(s);
  }

  lemma {:induction false} LeadingZero(s: Bytes)
    ensures Value([ZERO] + s) == Value(s)
  {
    if s == [] {
      assert [ZERO] + s == [ZERO] && [ZERO][..0] == [];
    } else {
      LeadingZero(s[..|s| - 1]);
      assert ([ZERO] + s)[..|s|] == [ZERO] + s[..|s| - 1];
    }
  }

  /** What is in front of the digits and behind them: spaces and a sign are read over, the rest is ignored. */
  lemma {:induction false} StoiReads(spaces: Bytes, sign: Bytes, digits: Bytes, rest: Bytes)
    requires forall k :: 0 <= k < |spaces| ==> IsSpace(spaces[k])
    requires sign == [] || sign == [43] || sign == [45]
    requires digits != [] && AllDigits(digits) && (rest == [] || !IsDigit(rest[0]))
    ensures var v := if sign == [45] then -Value(digits) else Value(digits);
      Stoi(spaces + sign + digits + rest) == if -0x8000_0000 <= v < 0x8000_0000 then Some(v) else None
  {
    var s := spaces + sign + digits + rest;
    if spaces != [] {
      StoiReads(spaces[1..], sign, digits, rest);
      assert s[1..] == spaces[1..] + sign + digits + rest;
    } else {
      DigitsBefore(digits, rest);
      assert s == sign + (digits + rest);
      if sign == [] {
        assert s == digits + rest;
      } else {
        assert s[1..] == digits + rest;
      }
    }
  }

  lemma {:induction false} DigitsBefore(digits: Bytes, rest: Bytes)
    requires AllDigits(digits) && (rest == [] || !IsDigit(rest[0]))
    ensures DigitsOf(digits + rest) == digits
  {
    var s := digits + rest;
    if digits == [] {
      assert s == rest;
    } else {
      DigitsBefore(digits[1..], rest);
      assert s[1..] == digits[1..] + rest;
    }
  }

  lemma {:induction false} PrecedesSnoc(p: Bytes, x: Byte, q: Bytes, y: Byte)
    requires |p| == |q|
    ensures Precedes(p + [x], q + [y]) <==> Precedes(p, q) || (p == q && x < y)
  {
    var p', q' := p + [x], q + [y];
    if p == [] {
      assert p'[1..] == [] && q'[1..] == [];
    } else {
      PrecedesSnoc(p[1..], x, q[1..], y);
      assert p'[1..] == p[1..] + [x] && q'[1..] == q[1..] + [y];
      assert p == [p[0]] + p[1..] && q == [q[0]] + q[1..];
    }
  }

  /** Digits are read with the most significant one first. */
  lemma {:induction false} ValueOrder(p: Bytes, q: Bytes)
    requires |p| == |q| && AllDigits(p) && AllDigits(q)
    ensures Value(p) < Value(q) <==> Precedes(p, q)
    ensures Value(p) == Value(q) <==> p == q
  {
    if p != [] {
      var n := |p| - 1;
      ValueOrder(p[..n], q[..n]);
      PrecedesSnoc(p[..n], p[n], q[..n], q[n]);
      assert p == p[..n] + [p[n]] && q == q[..n] + [q[n]];
    }
  }

  /** Zeros in front fill a text up to a width. */
  function Filled(s: Bytes, width: nat): Bytes
    decreases width - |s|
  {
    if |s| >= width then s else Filled([ZERO] + s, width)
  }

  lemma {:induction false} FilledValue(s: Bytes, width: nat)
    requires AllDigits(s)
    ensures AllDigits(Filled(s, width)) && Value(Filled(s, width)) == Value(s)
    ensures |Filled(s, width)| == if |s| >= width then |s| else width
    decreases width - |s|
  {
    if |s| < width {
      FilledValue([ZERO] + s, width);
      LeadingZero(s);
    }
  }

  /** A number written to a stream of width 4, filled with zeros. */
  function Padded(n: nat): Bytes
  {
    Filled(Decimal(n), 4)
  }

  lemma {:induction false} PaddedRoundTrip(n: nat)
    requires n < 10000
    ensures |Padded(n)| == 4 && Stoi(Padded(n)) == Some(n)
  {
    DecimalDigits(n);
    ShortDecimal(n);
    FilledValue(Decimal(n), 4);
    StoiDigits(Padded(n));
  }

  lemma {:induction false} PaddedDigits(n: nat)
    requires n < 10000
    ensures |Padded(n)| == 4 && AllDigits(Padded(n)) && Value(Padded(n)) == n
  {
    DecimalDigits(n);
    ShortDecimal(n);
    FilledValue(Decimal(n), 4);
  }

  /** The written lengths are ordered like the numbers, and a length below 10 is the last of four digits. */
  lemma {:induction false} PaddedOrder(n: nat, k: nat)
    requires n < 10000 && k < 10000
    ensures |Padded(n)| == |Padded(k)| && (n < k <==> Precedes(Padded(n), Padded(k)))
    ensures n < 10 ==> Padded(n) == [48, 48, 48, 48 + n]
  {
    PaddedDigits(n);
    PaddedDigits(k);
    ValueOrder(Padded(n), Padded(k));
    if n < 10 { SmallPadded(n); }
  }

  lemma {:induction false} SmallPadded(n: nat)
    requires n < 10
    ensures Padded(n) == [48, 48, 48, 48 + n]
  {
    var d: Bytes := [48 + n];
    assert Decimal(n) == d;
    assert [ZERO] + d == [48, 48 + n];
    assert [ZERO] + [48, 48 + n] == [48, 48, 48 + n];
    assert [ZERO] + [48, 48, 48 + n] == [48, 48, 48, 48 + n];
    assert Filled([48, 48, 48 + n], 4) == Filled([48, 48, 48, 48 + n], 4) == [48, 48, 48, 48 + n];
    assert Filled([48, 48 + n], 4) == Filled([48, 48, 48 + n], 4);
  }
}

/** The list of typed messages that is sent in one TCP packet. */
module CppsPacket {
  import opened Results
  import opened Framing
  import opened Decimals

  datatype FieldMessage = FieldMessage(payload: Bytes, kind: Byte)

  const BODY_LIMIT: nat := 10000

  function Body(m: FieldMessage): (b: Bytes)
    ensures b != []
  {
    Decimal(m.kind) + m.payload
  }

  function Packed(m: FieldMessage): Bytes
  {
    Padded(|Body(m)|) + Body(m)
  }

  function Serialized(ms: seq<FieldMessage>): Bytes
  {
    if ms == [] then [] else Packed(ms[0]) + Serialized(ms[1..])
  }

  /** The bodies respect the limit that is asserted. */
  ghost predicate Short(ms: seq<FieldMessage>)
  {
    forall k :: 0 <= k < |ms| ==> |Body(ms[k])| < BODY_LIMIT
  }

  ghost predicate OneDigit(ms: seq<FieldMessage>)
  {
    forall k :: 0 <= k < |ms| ==> ms[k].kind < 10
  }

  function Size(ms: seq<FieldMessage>): nat
  {
    if ms == [] then 0 else |ms[0].payload| + 1 + 4 + Size(ms[1..])
  }

  datatype Parsed = Parsed(messages: seq<FieldMessage>, ok: bool)

  /** The length field as an unsigned 32-bit number. */
  function Length(data: Bytes): Option<nat>
  {
    match Stoi(data[..Min(4, |data|)])
    case None => None
    case Some(v) => Some(v % PREFIX_LIMIT)
  }

  /** The first message in the text, or nothing when reading it throws. */
  function FirstMessage(data: Bytes): Option<FieldMessage>
  {
    var length := Length(data);
    if length.None? || |data| < 4 || length.value > |data| - 4 || length.value == 0 then None
    else
      var body := data[4..4 + length.value];
      Some(FieldMessage(body[1..], (body[0] as int - 48) % 256))
  }

  function AfterFirst(data: Bytes): (r: Bytes)
    requires FirstMessage(data).Some?
    ensures |r| < |data|
  {
    data[4 + Length(data).value..]
  }

  /** All messages up to the end or to the first one that cannot be read. */
  function Parse(data: Bytes): Parsed
    decreases |data|
  {
    if data == [] then Parsed([], true)
    else
      match FirstMessage(data)
      case None => Parsed([], false)
      case Some(m) =>
        var rest := Parse(AfterFirst(data));
        Parsed([m] + rest.messages, rest.ok)
  }

  /** What is read back for a message: the first digit of its type, the other digits are payload. */
  function ReadBack(m: FieldMessage): FieldMessage
  {
    FieldMessage(Body(m)[1..], (Body(m)[0] as int - 48) % 256)
  }

  function ReadBackAll(ms: seq<FieldMessage>): (r: seq<FieldMessage>)
    ensures |r| == |ms| && forall k :: 0 <= k < |ms| ==> r[k] == ReadBack(ms[k])
  {
    seq(|ms|, (k: nat) requires k < |ms| => ReadBack(ms[k]))
  }

  lemma {:induction false} ReadBackIff(m: FieldMessage)
    ensures ReadBack(m) == m <==> m.kind < 10
    ensures |Packed(m)| >= |m.payload| + 1 + 4 || |Body(m)| >= BODY_LIMIT
    ensures |Body(m)| < BODY_LIMIT ==> (|Packed(m)| == |m.payload| + 1 + 4 <==> m.kind < 10)
  {
    DecimalDigits(m.kind);
    if |Body(m)| < BODY_LIMIT { PaddedRoundTrip(|Body(m)|); }
    if m.kind < 10 {
      assert Body(m)[1..] == m.payload;
    } else {
      assert |Body(m)[1..]| > |m.payload|;
    }
  }

  lemma {:induction false} FirstPacked(m: FieldMessage, rest: Bytes)
    requires |Body(m)| < BODY_LIMIT
    ensures FirstMessage(Packed(m) + rest) == Some(ReadBack(m)) && AfterFirst(Packed(m) + rest) == rest
  {
    var data, n := Packed(m) + rest, |Body(m)|;
    PaddedRoundTrip(n);
    assert data[..4] == Padded(n);
    assert data[4..4 + n] == Body(m);
    assert data[4 + n..] == rest;
  }

  /** What reading gives for everything that was written. */
  lemma {:induction false} ParseSerialized(ms: seq<FieldMessage>)
    requires Short(ms)
    ensures Parse(Serialized(ms)) == Parsed(ReadBackAll(ms), true)
  {
    if ms != [] {
      FirstPacked(ms[0], Serialized(ms[1..]));
      ParseSerialized(ms[1..]);
      assert ReadBackAll(ms) == [ReadBack(ms[0])] + ReadBackAll(ms[1..]);
    }
  }

  /** Reading gives back the messages exactly when all types have one digit. */
  lemma {:induction false} RoundTripIff(ms: seq<FieldMessage>)
    requires Short(ms)
    ensures Parse(Serialized(ms)) == Parsed(ms, true) <==> OneDigit(ms)
  {
    ParseSerialized(ms);
    forall k | 0 <= k < |ms|
      ensures ReadBackAll(ms)[k] == ms[k] <==> ms[k].kind < 10
    {
      ReadBackIff(ms[k]);
    }
  }

  /** A short message of a one-digit type: four digits of length, the type, the payload. */
  lemma {:induction false} SmallPacket(payload: Bytes, kind: nat)
    requires |payload| < 9 && kind < 10
    ensures Packed(FieldMessage(payload, kind)) == [48, 48, 48, 49 + |payload|, 48 + kind] + payload
  {
    assert Decimal(kind) == [48 + kind];
    SmallPadded(1 + |payload|);
  }

  /** A message of type 12 is read back as one of type 1 whose payload begins with the other digit. */
  lemma {:induction false} TwoDigits(payload: Bytes)
    requires |payload| + 2 < BODY_LIMIT
    ensures Parse(Serialized([FieldMessage(payload, 12)])) == Parsed([FieldMessage([50] + payload, 1)], true)
  {
    var m := FieldMessage(payload, 12);
    assert Decimal(12) == [49, 50] by { assert Decimal(1) == [49]; }
    assert Body(m)[1..] == [50] + payload;
    ParseSerialized([m]);
    assert ReadBackAll([m]) == [ReadBack(m)];
  }

  /** A type is read from any byte, relative to the digit zero. */
  lemma {:induction false} AnyType(b: Byte)
    ensures Parse([48, 48, 48, 49, b]) == Parsed([FieldMessage([], (b + 208) % 256)], true)
  {
    var data: Bytes := [48, 48, 48, 49, b];
    PaddedRoundTrip(1);
    SmallPadded(1);
    assert data[..4] == Padded(1);
    assert data[4..5] == [b] && data[5..] == [] && [b][1..] == [];
  }

  /** A negative length is a huge one, which no text has. */
  lemma {:induction false} NegativeLength(data: Bytes)
    requires 4 <= |data| < PREFIX_LIMIT - 1000 && data[0] == 45 && AllDigits(data[1..4])
    ensures Parse(data) == Parsed([], false)
  {
    var digits := data[1..4];
    StoiReads([], [45], digits, []);
    assert data[..4] == [] + [45] + digits + [];
    ThreeDigits(digits);
  }

  lemma {:induction false} ThreeDigits(s: Bytes)
    requires |s| == 3 && AllDigits(s)
    ensures 0 <= Value(s) < 1000
  {
    assert s[..2][..1] == s[..1] && s[..1][..0] == [];
    assert 0 <= Value(s[..1]) < 10;
    assert 0 <= Value(s[..2]) < 100;
  }

  /** The announced size is the number of bytes written exactly when all types have one digit. */
  lemma {:induction false} SizeIff(ms: seq<FieldMessage>)
    requires Short(ms)
    ensures Size(ms) <= |Serialized(ms)|
    ensures Size(ms) == |Serialized(ms)| <==> OneDigit(ms)
  {
    if ms != [] {
      ReadBackIff(ms[0]);
      SizeIff(ms[1..]);
      assert OneDigit(ms) <==> ms[0].kind < 10 && OneDigit(ms[1..]) by {
        assert ms == [ms[0]] + ms[1..];
        assert OneDigit(ms) ==> forall k :: 0 <= k < |ms[1..]| ==> ms[1..][k] == ms[k + 1];
      }
    }
  }

  class CppsTcpMessage {
    var messages: seq<FieldMessage>

    constructor ()
      ensures messages == []
    {
      messages := [];
    }

    method GetSerializedSize() returns (size: nat)
      ensures size == Size(messages)
    {
      size := 0;
      for i := 0 to |messages|
        invariant size + Size(messages[i..]) == Size(messages)
      {
        size := size + |messages[i].payload| + 1 + 4;
        assert messages[i..][1..] == messages[i + 1..];
      }
    }

    method Serialize() returns (r: Result<Bytes>)
      ensures r.Ok? <==> Short(messages)
      ensures r.Ok? ==> r.value == Serialized(messages)
    {
      var text := [];
      for i := 0 to |messages|
        invariant text + Serialized(messages[i..]) == Serialized(messages)
        invariant forall k :: 0 <= k < i ==> |Body(messages[k])| < BODY_LIMIT
      {
        var body := Decimal(messages[i].kind) + messages[i].payload;
        if |body| >= BODY_LIMIT { return Err("Assertion failed"); }
        assert messages[i..][1..] == messages[i + 1..];
        text := text + Padded(|body|) + body;
      }
      return Ok(text);
    }

    /** One round of the reading loop; nothing when one of its operations throws. */
    static method ReadMessage(text: Bytes) returns (m: Option<FieldMessage>, rest: Bytes)
      ensures m == FirstMessage(text)
      ensures m.Some? ==> rest == AfterFirst(text)
    {
      rest := text;
      var length := Length(text);
      if length.None? || |text| < 4 { return None, rest; }
      rest := text[4..];
      if length.value > |rest| || length.value == 0 { return None, rest; }
      var body := rest[..length.value];
      assert body == text[4..4 + length.value] && rest[length.value..] == text[4 + length.value..];
      m := Some(FieldMessage(body[1..], (body[0] as int - 48) % 256));
      rest := rest[length.value..];
    }

    /** Appends what can be read; a failure keeps the messages before it. */
    method Deserialize(data: Bytes) returns (r: Result<nat>)
      modifies this
      ensures messages == old(messages) + Parse(data).messages
      ensures r.Ok? <==> Parse(data).ok
      ensures r.Ok? ==> r.value == Size(messages)
    {
      var text := data;
      while text != []
        invariant messages + Parse(text).messages == old(messages) + Parse(data).messages
        invariant Parse(text).ok == Parse(data).ok
        decreases |text|
      {
        var message, rest := ReadMessage(text);
        if message.None? { return Err("invalid message"); }
        messages := messages + [message.value];
        text := rest;
      }
      var size := GetSerializedSize();
      return Ok(size);
    }
  }
}

/** The datagram that carries a sender's address in front of the payload. */
module SolaMessage {
  import opened Results
  import opened Framing
  import opened Decimals

  const SEPARATOR: Byte := 59

  type Port = n: nat | n < 0x1_0000

  datatype Message = Message(ip: Bytes, port: Port, payload: Bytes)

  function Serialized(m: Message): Bytes
  {
    m.ip + [SEPARATOR] + Decimal(m.port) + [SEPARATOR] + m.payload + [SEPARATOR]
  }

  function Size(m: Message): nat
  {
    |m.ip| + |Decimal(m.port)| + |m.payload| + 3
  }

  /** The text up to the first separator, or all of it. */
  function Head(s: Bytes): Bytes
  {
    if s == [] || s[0] == SEPARATOR then [] else [s[0]] + Head(s[1..])
  }

  /** The text after the first separator, or all of it. */
  function Tail(s: Bytes): Bytes
  {
    var n := |Head(s)|;
    if n < |s| then s[n + 1..] else s
  }

  lemma {:induction false} HeadIsPrefix(s: Bytes)
    ensures |Head(s)| <= |s| && Head(s) == s[..|Head(s)|] && SEPARATOR !in Head(s)
    ensures |Head(s)| < |s| ==> s[|Head(s)|] == SEPARATOR
  {
    if s != [] && s[0] != SEPARATOR {
      HeadIsPrefix(s[1..]);
      assert s == [s[0]] + s[1..];
    }
  }

  lemma {:induction false} HeadBefore(a: Bytes, rest: Bytes)
    requires SEPARATOR !in a
    ensures Head(a + [SEPARATOR] + rest) == a && Tail(a + [SEPARATOR] + rest) == rest
  {
    var s := a + [SEPARATOR] + rest;
    if a != [] {
      HeadBefore(a[1..], rest);
      assert s[1..] == a[1..] + [SEPARATOR] + rest;
    }
    assert s[|a| + 1..] == rest;
  }

  lemma {:induction false} DigitsHaveNoSeparator(n: nat)
    ensures SEPARATOR !in Decimal(n)
  {
    DecimalDigits(n);
  }

  /** What is read from a text; nothing when the port is no number, or when nothing is left behind it. */
  function Read(data: Bytes): Option<Message>
  {
    var rest := Tail(Tail(data));
    match Stoi(Head(Tail(data)))
    case None => None
    case Some(v) => if rest == [] then None else Some(Message(Head(data), v % 0x1_0000, rest[..|rest| - 1]))
  }

  /** The object the text is read into; taking the end off an empty rest is undefined, and fails here. */
  class SolaMessageNs3 {
    var ip: Bytes
    var port: Port
    var payload: Bytes

    function Contents(): Message
      reads this
    {
      Message(ip, port, payload)
    }

    constructor ()
      ensures Contents() == Message([], 0, [])
    {
      ip, port, payload := [], 0, [];
    }

    method Serialize() returns (data: Bytes)
      ensures |data| == Size(Contents())
      ensures Read(data) == Some(Contents()) <==> SEPARATOR !in ip
      ensures data == Serialized(Contents())
    {
      RoundTripIff(Contents());
      data := ip + [SEPARATOR];
      data := data + Decimal(port) + [SEPARATOR];
      data := data + payload + [SEPARATOR];
    }

    method Deserialize(data: Bytes) returns (r: Result<nat>)
      modifies this
      ensures r.Ok? <==> Read(data).Some?
      ensures r.Ok? ==> Contents() == Read(data).value && r.value == Size(Contents())
      ensures r.Err? ==> ip == Head(data) && payload == old(payload)
      ensures r.Err? && Stoi(Head(Tail(data))).None? ==> port == old(port)
    {
      var msg := data;
      ip := Head(msg);
      msg := Tail(msg);
      var number := Stoi(Head(msg));
      if number.None? { return Err("stoi"); }
      port := number.value % 0x1_0000;
      msg := Tail(msg);
      if msg == [] { return Err("erase"); }
      msg := msg[..|msg| - 1];
      payload := msg;
      return Ok(|ip| + |Decimal(port)| + |payload| + 3);
    }
  }

  /** The announced size is the number of bytes written. */
  lemma {:induction false} SizeIsExact(m: Message)
    ensures |Serialized(m)| == Size(m)
  {
  }

  lemma {:induction false} PartsOf(m: Message)
    requires SEPARATOR !in m.ip
    ensures var data := Serialized(m);
      Head(data) == m.ip && Head(Tail(data)) == Decimal(m.port) && Tail(Tail(data)) == m.payload + [SEPARATOR]
  {
    var rest := m.payload + [SEPARATOR];
    var middle := Decimal(m.port) + [SEPARATOR] + rest;
    assert Serialized(m) == m.ip + [SEPARATOR] + middle;
    HeadBefore(m.ip, middle);
    DigitsHaveNoSeparator(m.port);
    HeadBefore(Decimal(m.port), rest);
  }

  lemma {:induction false} PortRoundTrip(port: Port)
    ensures Stoi(Decimal(port)) == Some(port)
  {
    DecimalDigits(port);
    StoiDigits(Decimal(port));
  }

  lemma {:induction false} RoundTrip(m: Message)
    requires SEPARATOR !in m.ip
    ensures Read(Serialized(m)) == Some(m)
  {
    PartsOf(m);
    PortRoundTrip(m.port);
    assert (m.payload + [SEPARATOR])[..|m.payload|] == m.payload;
  }

  /** Reading gives back the message exactly when its address is free of separators, whatever the payload holds. */
  lemma {:induction false} RoundTripIff(m: Message)
    ensures Read(Serialized(m)) == Some(m) <==> SEPARATOR !in m.ip
  {
    if SEPARATOR !in m.ip {
      RoundTrip(m);
    } else {
      HeadIsPrefix(Serialized(m));
    }
  }

  /** Any number can stand for the port; it is taken modulo 2^16. */
  lemma {:induction false} PortWraps(ip: Bytes, n: nat, payload: Bytes, last: Byte)
    requires SEPARATOR !in ip && n <= INT_MAX
    ensures Read(ip + [SEPARATOR] + Decimal(n) + [SEPARATOR] + payload + [last]) ==
      Some(Message(ip, n % 0x1_0000, payload))
  {
    var rest := payload + [last];
    var middle := Decimal(n) + [SEPARATOR] + rest;
    assert ip + [SEPARATOR] + Decimal(n) + [SEPARATOR] + payload + [last] == ip + [SEPARATOR] + middle;
    HeadBefore(ip, middle);
    DigitsHaveNoSeparator(n);
    HeadBefore(Decimal(n), rest);
    DecimalDigits(n);
    StoiDigits(Decimal(n));
    assert rest[..|rest| - 1] == payload;
  }

  /** A text without separators is taken for the address, the port and the payload at once. */
  lemma {:induction false} NoSeparator(data: Bytes)
    requires SEPARATOR !in data && data != [] && Stoi(data).Some?
    ensures Read(data) == Some(Message(data, Stoi(data).value % 0x1_0000, data[..|data| - 1]))
  {
    AllHead(data);
  }

  lemma {:induction false} AllHead(s: Bytes)
    requires SEPARATOR !in s
    ensures Head(s) == s
  {
    if s != [] {
      AllHead(s[1..]);
      assert s == [s[0]] + s[1..];
    }
  }

  /** The text of a message: address, port in decimal and payload, each followed by a semicolon. */
  lemma {:induction false} TextOfMessage(ip: Bytes, payload: Bytes)
    ensures Serialized(Message(ip, 80, payload)) == ip + [59, 56, 48, 59] + payload + [59]
  {
    assert Decimal(80) == [56, 48] by { assert Decimal(8) == [56]; }
    assert [SEPARATOR] + ([56, 48] + [SEPARATOR]) == [59, 56, 48, 59];
  }

  /** An address that is a separator: the port is then looked for in front of the second separator. */
  lemma {:induction false} SeparatorInAddress()
    ensures Read(Serialized(Message([SEPARATOR], 80, []))) == None
  {
    var rest := Decimal(80) + [SEPARATOR] + [SEPARATOR];
    assert Serialized(Message([SEPARATOR], 80, [])) == [] + [SEPARATOR] + ([] + [SEPARATOR] + rest);
    HeadBefore([], [] + [SEPARATOR] + rest);
    HeadBefore([], rest);
  }
}
