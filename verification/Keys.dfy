/** The connection data that the two sides of new_busy_poll/send_lat.c exchange as text. */
module Keys {
  import opened Arith
  import opened Options
  import opened Text

  /** Address of the peer; `gid` is empty when no GID index is given. */
  datatype Dest = Dest(lid: nat, qpn: nat, psn: nat, rkey: nat, vaddr: nat, gid: seq<nat>)

  const GID_BYTES := 16
  /** Sizes of the two message buffers, the terminating zero included. */
  const KEY_MSG_SIZE := 45
  const KEY_MSG_SIZE_GID := 93
  /** Size of the buffer into which one token is copied. */
  const TMP_SIZE := 20

  /** A number and the width it is printed with. */
  datatype Field = Field(value: nat, width: nat)

  function PlainFields(d: Dest): seq<Field> {
    [Field(d.lid, 4), Field(d.qpn, 6), Field(d.psn, 6), Field(d.rkey, 8), Field(d.vaddr, 16)]
  }

  function GidFields(gid: seq<nat>): (fs: seq<Field>)
    ensures |fs| == |gid|
  {
    seq(|gid|, i requires 0 <= i < |gid| => Field(gid[i], 2))
  }

  function Fields(d: Dest): seq<Field> {
    PlainFields(d) + GidFields(d.gid)
  }

  /** The fields in hexadecimal, with colons between them. */
  function Join(fs: seq<Field>): string {
    if fs == [] then ""
    else if |fs| == 1 then Print(fs[0].value, 16, fs[0].width)
    else Print(fs[0].value, 16, fs[0].width) + (":" + Join(fs[1..]))
  }

  /** What pp_write_keys prints into its buffer. */
  function WriteKeys(d: Dest): string {
    Join(Fields(d))
  }

  predicate FieldFits(f: Field) {
    f.value < Power(16, f.width)
  }

  function Widths(fs: seq<Field>): nat {
    if fs == [] then 0 else fs[0].width + Widths(fs[1..])
  }

  predicate Printable(fs: seq<Field>) {
    forall f :: f in fs ==> f.width >= 1
  }

  /** The text is never shorter than its widths and colons, and as short exactly if every field fits. */
  lemma {:induction false} JoinLength(fs: seq<Field>)
    requires Printable(fs) && fs != []
    ensures |Join(fs)| >= Widths(fs) + |fs| - 1
    ensures |Join(fs)| == Widths(fs) + |fs| - 1 <==> forall f :: f in fs ==> FieldFits(f)
  {
    var f := fs[0];
    assert f in fs;
    PrintValue(f.value, 16, f.width);
    assert fs == [f] + fs[1..];
    if |fs| == 1 {
      assert Widths(fs) == f.width + Widths([]);
    } else {
      JoinLength(fs[1..]);
    }
  }

  // ----- reading without a GID: one scan -----

  /** The scan of `%04x:%06x:...`: each conversion takes at most its width, and colons must match. */
  function ScanFields(s: string, widths: seq<nat>): Option<seq<nat>>
    decreases |widths|
  {
    if widths == [] then Some([])
    else
      match ScanNumber(s, 16, widths[0])
      case None => None
      case Some((v, rest)) =>
        if |widths| == 1 then Some([v])
        else if rest == "" || rest[0] != ':' then None
        else
          match ScanFields(rest[1..], widths[1..])
          case None => None
          case Some(vs) => Some([v] + vs)
  }

  function WidthsOf(fs: seq<Field>): seq<nat> {
    seq(|fs|, i requires 0 <= i < |fs| => fs[i].width)
  }

  function Values(fs: seq<Field>): seq<nat> {
    seq(|fs|, i requires 0 <= i < |fs| => fs[i].value)
  }

  lemma ValuesCons(fs: seq<Field>)
    requires fs != []
    ensures Values(fs) == [fs[0].value] + Values(fs[1..])
    ensures |fs| == 1 ==> Values(fs) == [fs[0].value]
  {
  }

  lemma JoinCons(fs: seq<Field>)
    requires fs != []
    ensures var s := Print(fs[0].value, 16, fs[0].width);
            Join(fs) == if |fs| == 1 then s else s + (":" + Join(fs[1..]))
  {
  }

  lemma WidthsCons(fs: seq<Field>)
    requires fs != []
    ensures |WidthsOf(fs)| == |fs| && WidthsOf(fs)[0] == fs[0].width && WidthsOf(fs)[1..] == WidthsOf(fs[1..])
  {
  }

  /** One conversion of a field that fits its width, followed by a colon or by the end of the text. */
  lemma ScanField(f: Field, tail: string)
    requires f.width >= 1 && FieldFits(f) && (tail == "" || tail[0] == ':')
    ensures ScanNumber(Print(f.value, 16, f.width) + tail, 16, f.width) == Some((f.value, tail))
  {
    PrintValue(f.value, 16, f.width);
    ScanPrinted(f.value, 16, f.width, tail, f.width);
  }

  lemma {:induction false} ScanJoined(fs: seq<Field>)
    requires forall k :: 0 <= k < |fs| ==> fs[k].width >= 1 && FieldFits(fs[k])
    ensures ScanFields(Join(fs), WidthsOf(fs)) == Some(Values(fs))
  {
    if fs != [] {
      var s := Print(fs[0].value, 16, fs[0].width);
      WidthsCons(fs);
      ValuesCons(fs);
      JoinCons(fs);
      if |fs| == 1 {
        ScanField(fs[0], "");
        assert s + "" == s;
      } else {
        var tail := ":" + Join(fs[1..]);
        ScanField(fs[0], tail);
        assert tail[1..] == Join(fs[1..]);
        ScanJoined(fs[1..]);
      }
    } else {
      assert WidthsOf(fs) == [] && Values(fs) == [];
    }
  }

  function PlainDest(vs: seq<nat>): Dest
    requires |vs| == 5
  {
    Dest(vs[0], vs[1], vs[2], vs[3], vs[4], [])
  }

  /** pp_read_keys without a GID; None where it reports a line it could not parse. */
  function ReadPlain(msg: string): Option<Dest> {
    match ScanFields(msg, [4, 6, 6, 8, 16])
    case None => None
    case Some(vs) => if |vs| == 5 then Some(PlainDest(vs)) else None
  }

  // ----- reading with a GID: token by token -----

  function FirstColon(s: string): (i: nat)
    ensures i <= |s| && (i < |s| ==> s[i] == ':') && ':' !in s[..i]
  {
    if s == "" then 0
    else if s[0] == ':' then 0
    else
      var i := FirstColon(s[1..]);
      assert s[..i + 1] == [s[0]] + s[1..][..i];
      i + 1
  }

  /** The number that strtol, strtoll and strtoull read off a token in base 16; no digits at all read as 0. */
  function HexValue(token: string): nat {
    match ScanNumber(token, 16, |token|)
    case None => 0
    case Some((v, _)) => v
  }

  /**
   The values of `n` tokens that end in a colon and of the rest. None where the source would follow a
   null pointer, for want of a colon, or copy a token longer than its buffer.
   */
  function Tokens(s: string, n: nat): Option<seq<nat>> {
    if n == 0 then
      if |s| < TMP_SIZE then Some([HexValue(s)]) else None
    else
      var t := FirstColon(s);
      if t == |s| || t >= TMP_SIZE then None
      else
        match Tokens(s[t + 1..], n - 1)
        case None => None
        case Some(vs) => Some([HexValue(s[..t])] + vs)
  }

  lemma TokenValue(f: Field)
    requires f.width >= 1
    ensures HexValue(Print(f.value, 16, f.width)) == f.value
    ensures ':' !in Print(f.value, 16, f.width)
  {
    var s := Print(f.value, 16, f.width);
    PrintValue(f.value, 16, f.width);
    ScanPrinted(f.value, 16, f.width, "", |s|);
    assert s + "" == s;
    forall i | 0 <= i < |s| ensures s[i] != ':' {
      assert DigitValue(s[i]) < 16;
    }
  }

  lemma {:induction false} ColonAfter(s: string, rest: string)
    requires ':' !in s
    ensures FirstColon(s + (":" + rest)) == |s|
  {
    if s != "" {
      assert s[0] in s;
      assert (s + (":" + rest))[1..] == s[1..] + (":" + rest);
      ColonAfter(s[1..], rest);
    }
  }

  lemma TokenSplit(s: string, rest: string, n: nat)
    requires ':' !in s && |s| < TMP_SIZE
    ensures Tokens(s + (":" + rest), n + 1) == Prefixed([HexValue(s)], Tokens(rest, n))
  {
    var whole := s + (":" + rest);
    ColonAfter(s, rest);
    assert whole[..|s|] == s && whole[|s| + 1..] == rest;
  }

  /** Tokens already read put in front of what is still to be read. */
  function Prefixed(vs: seq<nat>, rest: Option<seq<nat>>): Option<seq<nat>> {
    match rest
    case None => None
    case Some(ws) => Some(vs + ws)
  }

  /** A field that a token buffer can hold. */
  predicate Holdable(f: Field) {
    1 <= f.width < TMP_SIZE && FieldFits(f)
  }

  lemma LastToken(f: Field)
    requires Holdable(f)
    ensures Tokens(Print(f.value, 16, f.width), 0) == Some([f.value])
  {
    PrintValue(f.value, 16, f.width);
    TokenValue(f);
  }

  lemma LeadingToken(f: Field, rest: string, n: nat)
    requires Holdable(f)
    ensures Tokens(Print(f.value, 16, f.width) + (":" + rest), n + 1) == Prefixed([f.value], Tokens(rest, n))
  {
    PrintValue(f.value, 16, f.width);
    TokenValue(f);
    TokenSplit(Print(f.value, 16, f.width), rest, n);
  }

  lemma {:induction false} TokensJoined(fs: seq<Field>)
    requires fs != [] && forall k :: 0 <= k < |fs| ==> Holdable(fs[k])
    ensures Tokens(Join(fs), |fs| - 1) == Some(Values(fs))
  {
    ValuesCons(fs);
    JoinCons(fs);
    if |fs| == 1 {
      LastToken(fs[0]);
    } else {
      var rest := fs[1..];
      var n := |rest| - 1;
      TokensJoined(rest);
      LeadingToken(fs[0], Join(rest), n);
    }
  }

  /** What strtol and strtoll answer for a number too large for a 64-bit long. */
  function Signed(v: nat): (n: nat) {
    Min(v, TWO64 / 2 - 1)
  }

  /** Likewise strtoull. */
  function Unsigned(v: nat): (n: nat) {
    Min(v, TWO64 - 1)
  }

  function GidDest(vs: seq<nat>): Dest
    requires |vs| == 5 + GID_BYTES
  {
    Dest(Signed(vs[0]) % TWO32, Signed(vs[1]) % TWO32, Signed(vs[2]) % TWO32, Signed(vs[3]) % TWO32,
         Unsigned(vs[4]), Bytes(vs[5..]))
  }

  /** The low byte of every number. */
  function Bytes(vs: seq<nat>): (bs: seq<nat>)
    ensures |bs| == |vs|
  {
    seq(|vs|, i requires 0 <= i < |vs| => Signed(vs[i]) % 256)
  }

  lemma {:induction false} TokensCount(s: string, n: nat)
    ensures Tokens(s, n).Some? ==> |Tokens(s, n).value| == n + 1
  {
    if n > 0 {
      var t := FirstColon(s);
      if t < |s| { TokensCount(s[t + 1..], n - 1); }
    }
  }

  /** pp_read_keys with a GID. */
  function ReadGid(msg: string): Option<Dest> {
    TokensCount(msg, 4 + GID_BYTES);
    match Tokens(msg, 4 + GID_BYTES)
    case None => None
    case Some(vs) => Some(GidDest(vs))
  }

  // ----- round trips -----

  /** What the verbs guarantee of their identifiers. */
  predicate InRange(d: Dest) {
    && d.lid < 0x1_0000 && d.qpn < 0x100_0000 && d.psn < 0x100_0000
    && d.rkey < TWO32 && d.vaddr < 0x1_0000_0000_0000_0000
    && forall b :: b in d.gid ==> b < 256
  }

  lemma Powers()
    ensures Power(16, 2) == 256 && Power(16, 4) == 0x1_0000 && Power(16, 6) == 0x100_0000
    ensures Power(16, 8) == TWO32 && Power(16, 16) == 0x1_0000_0000_0000_0000
  {
    assert Power(16, 4) == 0x1_0000;
    assert Power(16, 6) == 16 * (16 * Power(16, 4));
    assert Power(16, 8) == 16 * (16 * Power(16, 6));
    assert Power(16, 10) == 16 * (16 * Power(16, 8));
    assert Power(16, 12) == 16 * (16 * Power(16, 10));
    assert Power(16, 14) == 16 * (16 * Power(16, 12));
    assert Power(16, 16) == 16 * (16 * Power(16, 14));
  }

  lemma RangeIsFit(d: Dest)
    ensures Printable(Fields(d))
    ensures InRange(d) <==> forall f :: f in Fields(d) ==> FieldFits(f)
  {
    Powers();
    var fs := Fields(d);
    assert fs[0] == Field(d.lid, 4) && fs[1] == Field(d.qpn, 6) && fs[2] == Field(d.psn, 6);
    assert fs[3] == Field(d.rkey, 8) && fs[4] == Field(d.vaddr, 16);
    forall i | 0 <= i < |d.gid| ensures fs[5 + i] == Field(d.gid[i], 2) {
    }
    if forall f :: f in fs ==> FieldFits(f) {
      forall k | 0 <= k < |fs| ensures FieldFits(fs[k]) {
        assert fs[k] in fs;
      }
      forall b | b in d.gid ensures b < 256 {
        var i :| 0 <= i < |d.gid| && d.gid[i] == b;
        assert FieldFits(fs[5 + i]);
      }
    }
    forall f | f in fs ensures InRange(d) ==> FieldFits(f) {
      var k :| 0 <= k < |fs| && fs[k] == f;
      if k >= 5 { assert d.gid[k - 5] in d.gid; }
    }
  }

  lemma {:induction false} WidthsConcat(a: seq<Field>, b: seq<Field>)
    ensures Widths(a + b) == Widths(a) + Widths(b)
  {
    if a == [] {
      assert a + b == b;
    } else {
      assert (a + b)[1..] == a[1..] + b;
      WidthsConcat(a[1..], b);
    }
  }

  lemma {:induction false} GidWidths(gid: seq<nat>)
    ensures Widths(GidFields(gid)) == 2 * |gid|
  {
    if gid != [] {
      assert GidFields(gid)[1..] == GidFields(gid[1..]);
      GidWidths(gid[1..]);
    }
  }

  /** The text with its terminating zero fills the message buffer exactly if and only if every field is in range. */
  lemma MessageFits(d: Dest)
    requires d.gid == [] || |d.gid| == GID_BYTES
    ensures |WriteKeys(d)| + 1 >= if d.gid == [] then KEY_MSG_SIZE else KEY_MSG_SIZE_GID
    ensures InRange(d) <==> |WriteKeys(d)| + 1 == if d.gid == [] then KEY_MSG_SIZE else KEY_MSG_SIZE_GID
  {
    RangeIsFit(d);
    JoinLength(Fields(d));
    WidthsConcat(PlainFields(d), GidFields(d.gid));
    GidWidths(d.gid);
    PlainWidths(d);
  }

  lemma PlainWidths(d: Dest)
    ensures Widths(PlainFields(d)) == 40
  {
    var fs := PlainFields(d);
    assert Widths(fs[5..]) == 0;
    assert Widths(fs[4..]) == 16 + Widths(fs[4..][1..]) && fs[4..][1..] == fs[5..];
    assert Widths(fs[3..]) == 8 + Widths(fs[3..][1..]) && fs[3..][1..] == fs[4..];
    assert Widths(fs[2..]) == 6 + Widths(fs[2..][1..]) && fs[2..][1..] == fs[3..];
    assert Widths(fs[1..]) == 6 + Widths(fs[1..][1..]) && fs[1..][1..] == fs[2..];
  }

  /** Every field is at least one character wide and fits. */
  predicate AllFit(fs: seq<Field>) {
    fs == [] || (fs[0].width >= 1 && FieldFits(fs[0]) && AllFit(fs[1..]))
  }

  lemma {:induction false} HoldableFit(fs: seq<Field>)
    requires forall k :: 0 <= k < |fs| ==> Holdable(fs[k])
    ensures AllFit(fs)
  {
    if fs != [] { HoldableFit(fs[1..]); }
  }

  /** Where field `i` starts: after the fields before it and a colon for each. */
  function Offset(fs: seq<Field>, i: nat): nat
    requires i <= |fs|
  {
    if i == 0 then 0 else fs[0].width + 1 + Offset(fs[1..], i - 1)
  }

  lemma {:induction false} OffsetNext(fs: seq<Field>, i: nat)
    requires i < |fs|
    ensures Offset(fs, i + 1) == Offset(fs, i) + fs[i].width + 1
  {
    if i > 0 { OffsetNext(fs[1..], i - 1); }
  }

  /** What stands there is the field. */
  lemma {:induction false} FieldPlace(fs: seq<Field>, i: nat, at: nat, width: nat)
    requires i < |fs| && AllFit(fs) && at == Offset(fs, i) && width == fs[i].width
    ensures at + width <= |Join(fs)| && Value(Join(fs)[at..at + width], 16) == fs[i].value
  {
    if i == 0 {
      FirstField(fs);
    } else {
      FieldPlace(fs[1..], i - 1, at - fs[0].width - 1, width);
      LaterField(fs, at, width);
    }
  }

  lemma FirstField(fs: seq<Field>)
    requires fs != [] && fs[0].width >= 1 && FieldFits(fs[0])
    ensures fs[0].width <= |Join(fs)| && Value(Join(fs)[0..0 + fs[0].width], 16) == fs[0].value
  {
    var f := fs[0];
    PrintValue(f.value, 16, f.width);
    JoinCons(fs);
    assert Join(fs)[0..0 + f.width] == Print(f.value, 16, f.width);
  }

  lemma LaterField(fs: seq<Field>, at: nat, n: nat)
    requires |fs| > 1 && fs[0].width >= 1 && FieldFits(fs[0]) && at > fs[0].width
    requires at - fs[0].width - 1 + n <= |Join(fs[1..])|
    ensures at + n <= |Join(fs)|
    ensures Join(fs)[at..at + n] == Join(fs[1..])[at - fs[0].width - 1..at - fs[0].width - 1 + n]
  {
    var f := fs[0];
    var s := Print(f.value, 16, f.width);
    PrintValue(f.value, 16, f.width);
    JoinCons(fs);
    assert s + (":" + Join(fs[1..])) == (s + ":") + Join(fs[1..]);
    Shifted(s + ":", Join(fs[1..]), Join(fs), at, n);
  }

  lemma Shifted(head: string, tail: string, whole: string, at: nat, n: nat)
    requires whole == head + tail && at >= |head| && at - |head| + n <= |tail|
    ensures whole[at..at + n] == tail[at - |head|..at - |head| + n]
  {
  }

  /** Where each part of the address stands in the message: the order of the fields on the wire. */
  lemma KeyPlaces(d: Dest)
    requires InRange(d)
    ensures var s := WriteKeys(d);
            && |s| >= 44 && Value(s[0..4], 16) == d.lid && Value(s[5..11], 16) == d.qpn
            && Value(s[12..18], 16) == d.psn && Value(s[19..27], 16) == d.rkey && Value(s[28..44], 16) == d.vaddr
  {
    var fs := Fields(d);
    GidFieldsHoldable(d);
    HoldableFit(fs);
    PlainPlaces(fs, d);
    FieldPlace(fs, 0, 0, 4);
    FieldPlace(fs, 1, 5, 6);
    FieldPlace(fs, 2, 12, 6);
    FieldPlace(fs, 3, 19, 8);
    FieldPlace(fs, 4, 28, 16);
  }

  lemma PlainPlaces(fs: seq<Field>, d: Dest)
    requires fs == Fields(d)
    ensures |fs| == 5 + |d.gid|
    ensures fs[0] == Field(d.lid, 4) && fs[1] == Field(d.qpn, 6) && fs[2] == Field(d.psn, 6)
    ensures fs[3] == Field(d.rkey, 8) && fs[4] == Field(d.vaddr, 16)
    ensures Offset(fs, 0) == 0 && Offset(fs, 1) == 5 && Offset(fs, 2) == 12 && Offset(fs, 3) == 19
    ensures Offset(fs, 4) == 28 && Offset(fs, 5) == 45
  {
    OffsetNext(fs, 0);
    OffsetNext(fs, 1);
    OffsetNext(fs, 2);
    OffsetNext(fs, 3);
    OffsetNext(fs, 4);
  }

  lemma {:induction false} GidOffset(d: Dest, i: nat)
    requires i <= |d.gid|
    ensures |Fields(d)| == 5 + |d.gid| && Offset(Fields(d), 5 + i) == 45 + 3 * i
  {
    var fs := Fields(d);
    if i == 0 {
      PlainPlaces(fs, d);
    } else {
      GidOffset(d, i - 1);
      assert fs[5 + i - 1] == Field(d.gid[i - 1], 2);
      OffsetNext(fs, 5 + i - 1);
    }
  }

  /** And the bytes of the GID after it, three characters each. */
  lemma GidPlace(d: Dest, i: nat)
    requires InRange(d) && i < |d.gid|
    ensures |WriteKeys(d)| >= 47 + 3 * i && Value(WriteKeys(d)[45 + 3 * i..47 + 3 * i], 16) == d.gid[i]
  {
    var fs := Fields(d);
    GidFieldsHoldable(d);
    HoldableFit(fs);
    GidOffset(d, i);
    assert fs[5 + i] == Field(d.gid[i], 2);
    FieldPlace(fs, 5 + i, 45 + 3 * i, 2);
  }

  lemma GidFieldsHoldable(d: Dest)
    requires InRange(d)
    ensures forall k :: 0 <= k < |Fields(d)| ==> Holdable(Fields(d)[k])
  {
    RangeIsFit(d);
    forall k | 0 <= k < |Fields(d)| ensures Holdable(Fields(d)[k]) {
      assert Fields(d)[k] in Fields(d);
    }
  }

  /** Without a GID: reading undoes writing, for every address in range. */
  lemma PlainRoundTrip(d: Dest)
    requires d.gid == [] && InRange(d)
    ensures ReadPlain(WriteKeys(d)) == Some(d)
  {
    RangeIsFit(d);
    var fs := Fields(d);
    assert fs == PlainFields(d);
    forall k | 0 <= k < |fs| ensures fs[k].width >= 1 && FieldFits(fs[k]) {
      assert fs[k] in fs;
    }
    ScanJoined(fs);
    assert WidthsOf(fs) == [4, 6, 6, 8, 16];
    assert Values(fs) == [d.lid, d.qpn, d.psn, d.rkey, d.vaddr];
  }

  lemma ReadTokens(msg: string, n: nat, vs: seq<nat>)
    requires n == 4 + GID_BYTES && Tokens(msg, n) == Some(vs)
    ensures |vs| == 5 + GID_BYTES && ReadGid(msg) == Some(GidDest(vs))
  {
    TokensCount(msg, n);
  }

  lemma GidDestOf(d: Dest, vs: seq<nat>)
    requires |d.gid| == GID_BYTES && InRange(d)
    requires vs == [d.lid, d.qpn, d.psn, d.rkey, d.vaddr] + d.gid
    ensures GidDest(vs) == d
  {
    assert vs[5..] == d.gid;
    BytesOf(d.gid);
  }

  /** With a GID: likewise, and no token ever outgrows the buffer it is copied to. */
  lemma GidRoundTrip(d: Dest)
    requires |d.gid| == GID_BYTES && InRange(d)
    ensures ReadGid(WriteKeys(d)) == Some(d)
  {
    var fs := Fields(d);
    var vs := Values(fs);
    GidFieldsHoldable(d);
    TokensJoined(fs);
    ValuesOf(d);
    ReadTokens(WriteKeys(d), |fs| - 1, vs);
    GidDestOf(d, vs);
  }

  lemma ValuesOf(d: Dest)
    ensures Values(Fields(d)) == [d.lid, d.qpn, d.psn, d.rkey, d.vaddr] + d.gid
  {
  }

  lemma BytesOf(gid: seq<nat>)
    requires forall b :: b in gid ==> b < 256
    ensures Bytes(gid) == gid
  {
    forall i | 0 <= i < |gid| ensures Bytes(gid)[i] == gid[i] {
      assert gid[i] in gid;
    }
  }

  // ----- the parser -----

  /** strpbrk from `pstr` on; the length of the text where there is no colon. */
  method FindColon(msg: string, pstr: nat) returns (term: nat)
    requires pstr <= |msg|
    ensures pstr <= term <= |msg| && term - pstr == FirstColon(msg[pstr..])
  {
    term := pstr;
    while term < |msg| && msg[term] != ':'
      invariant pstr <= term <= |msg|
      invariant term - pstr + FirstColon(msg[term..]) == FirstColon(msg[pstr..])
    {
      assert msg[term..][1..] == msg[term + 1..];
      term := term + 1;
    }
  }

  lemma PrefixedTwice(vs: seq<nat>, v: nat, rest: Option<seq<nat>>)
    ensures Prefixed(vs, Prefixed([v], rest)) == Prefixed(vs + [v], rest)
    ensures Prefixed([], rest) == rest
  {
    if rest.Some? {
      assert vs + ([v] + rest.value) == vs + [v] + rest.value;
      assert [] + rest.value == rest.value;
    }
  }

  /** Reads the token at `pstr` and steps over its colon; false where the source would go wrong. */
  method NextToken(msg: string, pstr: nat, ghost left: nat) returns (ok: bool, value: nat, next: nat)
    requires pstr <= |msg| && left > 0
    ensures !ok ==> Tokens(msg[pstr..], left) == None
    ensures ok ==> next <= |msg|
    ensures ok ==> Tokens(msg[pstr..], left) == Prefixed([value], Tokens(msg[next..], left - 1))
  {
    var term := FindColon(msg, pstr);
    ok, value, next := false, 0, pstr;
    if term == |msg| || term - pstr >= TMP_SIZE {
      return;
    }
    var tmp := msg[pstr..term];
    assert tmp == msg[pstr..][..term - pstr];
    value := HexValue(tmp);
    next := pstr + (term - pstr + 1);
    assert msg[pstr..][term - pstr + 1..] == msg[next..];
    ok := true;
  }

  /** The token loop: `n` tokens that end in a colon, then the rest of the text. */
  method ReadValues(msg: string, n: nat) returns (r: Option<seq<nat>>)
    ensures r == Tokens(msg, n)
  {
    var vs: seq<nat> := [];
    var pstr: nat := 0;
    assert msg[0..] == msg;
    PrefixedTwice([], 0, Tokens(msg, n));
    for i := 0 to n
      invariant pstr <= |msg|
      invariant Tokens(msg, n) == Prefixed(vs, Tokens(msg[pstr..], n - i))
    {
      var ok, value, next := NextToken(msg, pstr, n - i);
      if !ok {
        return None;
      }
      PrefixedTwice(vs, value, Tokens(msg[next..], n - i - 1));
      vs := vs + [value];
      pstr := next;
    }
    if |msg| - pstr >= TMP_SIZE {
      return None;
    }
    return Some(vs + [HexValue(msg[pstr..])]);
  }

  /** pp_read_keys with a GID: five numbers and sixteen bytes. */
  method ReadKeysGid(msg: string) returns (r: Option<Dest>)
    ensures r == ReadGid(msg)
  {
    TokensCount(msg, 4 + GID_BYTES);
    var read := ReadValues(msg, 4 + GID_BYTES);
    if read == None {
      return None;
    }
    var vs := read.value;
    var raw := new nat[GID_BYTES](_ => 0);
    for i := 0 to GID_BYTES
      invariant forall k :: 0 <= k < i ==> raw[k] == Signed(vs[5 + k]) % 256
    {
      raw[i] := Signed(vs[5 + i]) % 256;
    }
    assert raw[..] == Bytes(vs[5..]);
    return Some(Dest(Signed(vs[0]) % TWO32, Signed(vs[1]) % TWO32, Signed(vs[2]) % TWO32, Signed(vs[3]) % TWO32,
                     Unsigned(vs[4]), raw[..]));
  }
}
