/** An encoding of messages as lines that can be read off the front of any text. */
module Encodings {
  import opened Basics
  import opened Lines
  import opened Messages

  /** Neither a newline nor an opening brace. */
  ghost predicate Plain(b: Bytes) {
    NL !in b && 123 !in b
  }

  // ----- codes that can be read off the front of any text -----

  ghost predicate PrefixCode<T(!new)>(e: T -> Bytes) {
    forall x: T, y: T, r: Bytes, s: Bytes :: e(x) + r == e(y) + s ==> x == y && r == s
  }

  lemma Unpack<T(!new)>(e: T -> Bytes, x: T, y: T, r: Bytes, s: Bytes)
    requires PrefixCode(e) && e(x) + r == e(y) + s
    ensures x == y && r == s
  {
  }

  const MORE: Bytes := [43]
  const STOP: Bytes := [46]

  lemma SameTag(t: byte, u: byte, r: Bytes, s: Bytes)
    requires [t] + r == [u] + s
    ensures t == u && r == s
  {
    assert ([t] + r)[0] == t && ([u] + s)[0] == u;
    assert ([t] + r)[1..] == r && ([u] + s)[1..] == s;
  }

  function EncSeq<T>(xs: seq<T>, e: T -> Bytes): Bytes {
    if xs == [] then STOP else MORE + (e(xs[0]) + EncSeq(xs[1..], e))
  }

  lemma {:induction false} SeqIsCode<T(!new)>(e: T -> Bytes, xs: seq<T>, ys: seq<T>, r: Bytes, s: Bytes)
    requires PrefixCode(e) && EncSeq(xs, e) + r == EncSeq(ys, e) + s
    ensures xs == ys && r == s
    decreases |xs|
  {
    hide PrefixCode;
    var tx := if xs == [] then [] else e(xs[0]) + EncSeq(xs[1..], e);
    var ty := if ys == [] then [] else e(ys[0]) + EncSeq(ys[1..], e);
    assert EncSeq(xs, e) + r == [if xs == [] then 46 else 43] + (tx + r);
    assert EncSeq(ys, e) + s == [if ys == [] then 46 else 43] + (ty + s);
    SameTag(if xs == [] then 46 else 43, if ys == [] then 46 else 43, tx + r, ty + s);
    if xs != [] {
      Assoc(e(xs[0]), EncSeq(xs[1..], e), r);
      Assoc(e(ys[0]), EncSeq(ys[1..], e), s);
      Unpack(e, xs[0], ys[0], EncSeq(xs[1..], e) + r, EncSeq(ys[1..], e) + s);
      SeqIsCode(e, xs[1..], ys[1..], r, s);
      assert xs == [xs[0]] + xs[1..] && ys == [ys[0]] + ys[1..];
    } else {
      assert tx + r == r && ty + s == s;
    }
  }

  lemma {:induction false} SeqIsPlain<T(!new)>(e: T -> Bytes, xs: seq<T>)
    requires forall x: T :: Plain(e(x))
    ensures Plain(EncSeq(xs, e))
  {
    if xs == [] {
    } else {
      SeqIsPlain(e, xs[1..]);
    }
  }

  /** Two codes one after the other. */
  lemma PairIsCode<T(!new), U(!new)>(d: T -> Bytes, e: U -> Bytes, x: T, u: U, y: T, v: U, r: Bytes, s: Bytes)
    requires PrefixCode(d) && PrefixCode(e) && d(x) + e(u) + r == d(y) + e(v) + s
    ensures x == y && u == v && r == s
  {
    hide PrefixCode;
    Assoc(d(x), e(u), r);
    Assoc(d(y), e(v), s);
    Unpack(d, x, y, e(u) + r, e(v) + s);
    Unpack(e, u, v, r, s);
  }

  // ----- the fields of a message -----

  function EncByte(b: byte): Bytes {
    [64 + b / 16, 64 + b % 16]
  }

  lemma ByteIsCode()
    ensures PrefixCode(EncByte) && forall b: byte :: Plain(EncByte(b))
  {
    forall x: byte, y: byte, r: Bytes, s: Bytes | EncByte(x) + r == EncByte(y) + s ensures x == y && r == s {
      assert (EncByte(x) + r)[0] == 64 + x / 16 && (EncByte(x) + r)[1] == 64 + x % 16;
      assert (EncByte(y) + s)[0] == 64 + y / 16 && (EncByte(y) + s)[1] == 64 + y % 16;
      assert (EncByte(x) + r)[2..] == r && (EncByte(y) + s)[2..] == s;
    }
  }

  function EncBytes(b: Bytes): Bytes {
    EncSeq(b, EncByte)
  }

  lemma BytesIsCode()
    ensures PrefixCode(EncBytes) && forall b: Bytes :: Plain(EncBytes(b))
  {
    ByteIsCode();
    hide PrefixCode, Plain, EncSeq;
    forall x: Bytes, y: Bytes, r: Bytes, s: Bytes | EncBytes(x) + r == EncBytes(y) + s ensures x == y && r == s {
      SeqIsCode(EncByte, x, y, r, s);
    }
    forall b: Bytes ensures Plain(EncBytes(b)) { SeqIsPlain(EncByte, b); }
    IsCode(EncBytes);
  }

  lemma IsCode<T(!new)>(e: T -> Bytes)
    requires forall x: T, y: T, r: Bytes, s: Bytes :: e(x) + r == e(y) + s ==> x == y && r == s
    ensures PrefixCode(e)
  {
  }

  /** A value behind a tag byte. */
  lemma TaggedIs(t: byte, u: byte, a: Bytes, b: Bytes, r: Bytes, s: Bytes)
    requires [t] + a + r == [u] + b + s
    ensures t == u && a + r == b + s
  {
    Assoc([t], a, r);
    Assoc([u], b, s);
    SameTag(t, u, a + r, b + s);
  }

  function EncOption(o: Option<Bytes>): Bytes {
    match o
    case None => [110] + []
    case Some(b) => [115] + EncBytes(b)
  }

  lemma OptionIsCode()
    ensures PrefixCode(EncOption) && forall o: Option<Bytes> :: Plain(EncOption(o))
  {
    BytesIsCode();
    hide PrefixCode, EncBytes;
    forall x: Option<Bytes>, y: Option<Bytes>, r: Bytes, s: Bytes | EncOption(x) + r == EncOption(y) + s
      ensures x == y && r == s
    {
      var a, b := if x.Some? then EncBytes(x.value) else [], if y.Some? then EncBytes(y.value) else [];
      TaggedIs(if x.Some? then 115 else 110, if y.Some? then 115 else 110, a, b, r, s);
      if x.Some? { Unpack(EncBytes, x.value, y.value, r, s); } else { assert a + r == r && b + s == s; }
    }
    IsCode(EncOption);
  }

  function EncField(f: (Bytes, Bytes)): Bytes {
    EncBytes(f.0) + EncBytes(f.1)
  }

  lemma FieldIsCode()
    ensures PrefixCode(EncField) && forall f: (Bytes, Bytes) :: Plain(EncField(f))
  {
    BytesIsCode();
    hide PrefixCode, EncBytes;
    forall x: (Bytes, Bytes), y: (Bytes, Bytes), r: Bytes, s: Bytes | EncField(x) + r == EncField(y) + s
      ensures x == y && r == s
    {
      PairIsCode(EncBytes, EncBytes, x.0, x.1, y.0, y.1, r, s);
    }
    IsCode(EncField);
  }

  function EncArgs(a: Args): Bytes {
    match a
    case Fields(fs) => [102] + EncSeq(fs, EncField)
    case Scalar(j) => [106] + EncBytes(j)
  }

  lemma ArgsIsCode()
    ensures PrefixCode(EncArgs) && forall a: Args :: Plain(EncArgs(a))
  {
    BytesIsCode();
    FieldIsCode();
    hide PrefixCode, EncBytes, EncField, EncSeq;
    forall x: Args, y: Args, r: Bytes, s: Bytes | EncArgs(x) + r == EncArgs(y) + s ensures x == y && r == s {
      var a := if x.Fields? then EncSeq(x.fields, EncField) else EncBytes(x.json);
      var b := if y.Fields? then EncSeq(y.fields, EncField) else EncBytes(y.json);
      TaggedIs(if x.Fields? then 102 else 106, if y.Fields? then 102 else 106, a, b, r, s);
      if x.Fields? { SeqIsCode(EncField, x.fields, y.fields, r, s); } else { Unpack(EncBytes, x.json, y.json, r, s); }
    }
    forall a: Args ensures Plain(EncArgs(a)) { if a.Fields? { SeqIsPlain(EncField, a.fields); } }
    IsCode(EncArgs);
  }

  function EncCall(t: ToolCall): Bytes {
    EncOption(t.id) + (EncBytes(t.name) + EncArgs(t.args))
  }

  lemma CallIsCode()
    ensures PrefixCode(EncCall) && forall t: ToolCall :: Plain(EncCall(t))
  {
    OptionIsCode();
    BytesIsCode();
    ArgsIsCode();
    hide PrefixCode, EncBytes, EncOption, EncArgs;
    forall x: ToolCall, y: ToolCall, r: Bytes, s: Bytes | EncCall(x) + r == EncCall(y) + s ensures x == y && r == s {
      var tx, ty := EncBytes(x.name) + EncArgs(x.args), EncBytes(y.name) + EncArgs(y.args);
      Assoc(EncOption(x.id), tx, r);
      Assoc(EncOption(y.id), ty, s);
      Unpack(EncOption, x.id, y.id, tx + r, ty + s);
      PairIsCode(EncBytes, EncArgs, x.name, x.args, y.name, y.args, r, s);
    }
    IsCode(EncCall);
  }

  function EncBlock(b: Block): Bytes {
    match b
    case TextBlock(text) => [116] + EncBytes(text)
    case ToolUse(call) => [117] + EncCall(call)
    case ToolResult(id, result) => [114] + (EncOption(id) + EncOption(result))
    case OtherBlock => [111] + []
  }

  function BlockTag(b: Block): byte {
    match b
    case TextBlock(_) => 116
    case ToolUse(_) => 117
    case ToolResult(_, _) => 114
    case OtherBlock => 111
  }

  function BlockBody(b: Block): Bytes {
    match b
    case TextBlock(text) => EncBytes(text)
    case ToolUse(call) => EncCall(call)
    case ToolResult(id, result) => EncOption(id) + EncOption(result)
    case OtherBlock => []
  }

  lemma BlockIsCode()
    ensures PrefixCode(EncBlock) && forall b: Block :: Plain(EncBlock(b))
  {
    OptionIsCode();
    BytesIsCode();
    CallIsCode();
    hide PrefixCode, EncBytes, EncOption, EncCall;
    forall x: Block, y: Block, r: Bytes, s: Bytes | EncBlock(x) + r == EncBlock(y) + s ensures x == y && r == s {
      TaggedIs(BlockTag(x), BlockTag(y), BlockBody(x), BlockBody(y), r, s);
      match x
      case TextBlock(text) => Unpack(EncBytes, x.text, y.text, r, s);
      case ToolUse(call) => Unpack(EncCall, x.call, y.call, r, s);
      case ToolResult(_, _) => PairIsCode(EncOption, EncOption, x.callId, x.result, y.callId, y.result, r, s);
      case OtherBlock => assert [] + r == r && [] + s == s;
    }
    IsCode(EncBlock);
  }

  function EncContent(c: Content): Bytes {
    match c
    case NoContent => [110] + []
    case Str(text) => [115] + EncBytes(text)
    case Blocks(bs) => [98] + EncSeq(bs, EncBlock)
  }

  lemma ContentIsCode()
    ensures PrefixCode(EncContent) && forall c: Content :: Plain(EncContent(c))
  {
    BytesIsCode();
    BlockIsCode();
    hide PrefixCode, EncBytes, EncBlock, EncSeq;
    forall x: Content, y: Content, r: Bytes, s: Bytes | EncContent(x) + r == EncContent(y) + s
      ensures x == y && r == s
    {
      var a := match x case NoContent => [] case Str(t) => EncBytes(t) case Blocks(bs) => EncSeq(bs, EncBlock);
      var b := match y case NoContent => [] case Str(t) => EncBytes(t) case Blocks(bs) => EncSeq(bs, EncBlock);
      TaggedIs(if x.NoContent? then 110 else if x.Str? then 115 else 98,
               if y.NoContent? then 110 else if y.Str? then 115 else 98, a, b, r, s);
      match x
      case NoContent => assert [] + r == r && [] + s == s;
      case Str(t) => Unpack(EncBytes, x.str, y.str, r, s);
      case Blocks(bs) => SeqIsCode(EncBlock, x.blocks, y.blocks, r, s);
    }
    forall c: Content ensures Plain(EncContent(c)) { if c.Blocks? { SeqIsPlain(EncBlock, c.blocks); } }
    IsCode(EncContent);
  }

  function EncRole(r: Role): Bytes {
    [match r case User => 85 case Assistant => 65 case Tool => 84 case OtherRole => 79]
  }

  lemma RoleIsCode()
    ensures PrefixCode(EncRole) && forall r: Role :: Plain(EncRole(r))
  {
    forall x: Role, y: Role, r: Bytes, s: Bytes | EncRole(x) + r == EncRole(y) + s ensures x == y && r == s {
      SameTag(EncRole(x)[0], EncRole(y)[0], r, s);
    }
  }

  function EncCalls(calls: seq<ToolCall>): Bytes {
    EncSeq(calls, EncCall)
  }

  lemma CallsIsCode()
    ensures PrefixCode(EncCalls) && forall calls: seq<ToolCall> :: Plain(EncCalls(calls))
  {
    CallIsCode();
    hide PrefixCode, EncCall, EncSeq, Plain;
    forall x: seq<ToolCall>, y: seq<ToolCall>, r: Bytes, s: Bytes | EncCalls(x) + r == EncCalls(y) + s
      ensures x == y && r == s
    {
      SeqIsCode(EncCall, x, y, r, s);
    }
    forall calls: seq<ToolCall> ensures Plain(EncCalls(calls)) { SeqIsPlain(EncCall, calls); }
    IsCode(EncCalls);
  }

  /** One line per message: an opening brace, then the fields in order. */
  function EncMessage(m: Message): Bytes {
    [123] + (EncRole(m.role) + (EncContent(m.content) + (EncCalls(m.toolCalls) +
      (EncOption(m.toolCallId) + EncOption(m.reasoning)))))
  }

  lemma FieldsOf(m: Message, n: Message, r: Bytes, s: Bytes)
    requires EncMessage(m) + r == EncMessage(n) + s
    ensures m == n && r == s
  {
    RoleIsCode();
    ContentIsCode();
    CallsIsCode();
    OptionIsCode();
    hide PrefixCode, EncRole, EncContent, EncCalls, EncOption;
    var c, d := EncOption(m.toolCallId) + EncOption(m.reasoning), EncOption(n.toolCallId) + EncOption(n.reasoning);
    var b, e := EncCalls(m.toolCalls) + c, EncCalls(n.toolCalls) + d;
    var a, f := EncContent(m.content) + b, EncContent(n.content) + e;
    TaggedIs(123, 123, EncRole(m.role) + a, EncRole(n.role) + f, r, s);
    Assoc(EncRole(m.role), a, r);
    Assoc(EncRole(n.role), f, s);
    Unpack(EncRole, m.role, n.role, a + r, f + s);
    Assoc(EncContent(m.content), b, r);
    Assoc(EncContent(n.content), e, s);
    Unpack(EncContent, m.content, n.content, b + r, e + s);
    Assoc(EncCalls(m.toolCalls), c, r);
    Assoc(EncCalls(n.toolCalls), d, s);
    Unpack(EncCalls, m.toolCalls, n.toolCalls, c + r, d + s);
    PairIsCode(EncOption, EncOption, m.toolCallId, m.reasoning, n.toolCallId, n.reasoning, r, s);
  }

  lemma MessageShape(m: Message)
    ensures EncMessage(m) != [] && NoNewline(EncMessage(m)) && EncMessage(m)[0] == 123
    ensures 123 !in EncMessage(m)[1..]
  {
    RoleIsCode();
    ContentIsCode();
    CallsIsCode();
    OptionIsCode();
    hide PrefixCode, EncRole, EncContent, EncCalls, EncOption;
  }
}
