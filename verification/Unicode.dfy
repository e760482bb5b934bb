/** UTF-8 as an encoding of Unicode text (RFC 3629, section 3), and the check that text is one. */
module Unicode {
  import opened Basics
  import opened Utf8
  import opened WellKnown
  import opened Wire
  import opened Records
  import opened Descriptors
  import opened Parsing

  /** A code point that stands for a character: not one of the surrogates of UTF-16. */
  predicate IsCharacter(cp: nat) {
    cp <= 0x10_FFFF && !(0xD800 <= cp <= 0xDFFF)
  }

  /** One to four bytes; the first tells how many, the others carry six bits each. */
  function CharBytes(cp: nat): Bytes
    requires IsCharacter(cp)
  {
    if cp <= 0x7F then [cp]
    else if cp <= 0x7FF then [0xC0 + cp / 0x40, 0x80 + cp % 0x40]
    else if cp <= 0xFFFF then [0xE0 + cp / 0x1000, 0x80 + cp / 0x40 % 0x40, 0x80 + cp % 0x40]
    else [0xF0 + cp / 0x4_0000, 0x80 + cp / 0x1000 % 0x40, 0x80 + cp / 0x40 % 0x40, 0x80 + cp % 0x40]
  }

  predicate IsText(cps: seq<nat>) {
    forall i :: 0 <= i < |cps| ==> IsCharacter(cps[i])
  }

  function TextBytes(cps: seq<nat>): Bytes
    requires IsText(cps)
  {
    if cps == [] then [] else CharBytes(cps[0]) + TextBytes(cps[1..])
  }

  /** The bytes of a character in front of any others are taken for just that character. */
  lemma {:induction false} CharIsRead(cp: nat, rest: Bytes)
    requires IsCharacter(cp)
    ensures CharLength(CharBytes(cp) + rest) == |CharBytes(cp)|
  {
    var s := CharBytes(cp) + rest;
    if 0x7FF < cp <= 0xFFFF {
      assert cp / 0x40 == 0x40 * (cp / 0x1000) + cp / 0x40 % 0x40;
    } else if 0xFFFF < cp {
      assert cp / 0x1000 == 0x40 * (cp / 0x4_0000) + cp / 0x1000 % 0x40;
    }
  }

  /** Four digits of six bits. */
  lemma {:induction false} SixBits(a: nat, b: nat, c: nat, d: nat)
    requires b < 0x40 && c < 0x40 && d < 0x40
    ensures var cp := 0x4_0000 * a + 0x1000 * b + 0x40 * c + d;
            && cp % 0x40 == d && cp / 0x40 == 0x1000 * a + 0x40 * b + c
            && cp / 0x40 % 0x40 == c && cp / 0x1000 == 0x40 * a + b
            && cp / 0x1000 % 0x40 == b && cp / 0x4_0000 == a
  {
    var cp := 0x4_0000 * a + 0x1000 * b + 0x40 * c + d;
    DivUnique(cp, 0x40, 0x1000 * a + 0x40 * b + c, d);
    DivUnique(0x1000 * a + 0x40 * b + c, 0x40, 0x40 * a + b, c);
    DivUnique(0x40 * a + b, 0x40, a, b);
    DivUnique(cp, 0x1000, 0x40 * a + b, 0x40 * c + d);
    DivUnique(cp, 0x4_0000, a, 0x1000 * b + 0x40 * c + d);
  }

  lemma {:induction false} CharFromDigits(a: nat, b: nat, c: nat, d: nat)
    requires b < 0x40 && c < 0x40 && d < 0x40 && IsCharacter(0x4_0000 * a + 0x1000 * b + 0x40 * c + d)
    ensures var cp := 0x4_0000 * a + 0x1000 * b + 0x40 * c + d;
            && (0x7F < cp <= 0x7FF ==> CharBytes(cp) == [0xC0 + (0x40 * b + c), 0x80 + d])
            && (0x7FF < cp <= 0xFFFF ==> CharBytes(cp) == [0xE0 + (0x40 * a + b), 0x80 + c, 0x80 + d])
            && (0xFFFF < cp ==> CharBytes(cp) == [0xF0 + a, 0x80 + b, 0x80 + c, 0x80 + d])
  {
    SixBits(a, b, c, d);
  }

  /** What is taken for a character is the bytes of one. */
  lemma {:induction false} ReadIsChar(s: Bytes) returns (cp: nat)
    requires CharLength(s) > 0
    ensures IsCharacter(cp) && s[..CharLength(s)] == CharBytes(cp)
  {
    var n := CharLength(s);
    if n == 1 {
      cp := s[0];
    } else if n == 2 {
      var c: nat, d: nat := s[0] - 0xC0, s[1] - 0x80;
      cp := 0x40 * c + d;
      CharFromDigits(0, 0, c, d);
    } else if n == 3 {
      var b: nat, c: nat, d: nat := s[0] - 0xE0, s[1] - 0x80, s[2] - 0x80;
      cp := 0x1000 * b + 0x40 * c + d;
      CharFromDigits(0, b, c, d);
    } else {
      var a: nat, b: nat, c: nat, d: nat := s[0] - 0xF0, s[1] - 0x80, s[2] - 0x80, s[3] - 0x80;
      cp := 0x4_0000 * a + 0x1000 * b + 0x40 * c + d;
      CharFromDigits(a, b, c, d);
    }
  }

  ghost predicate EncodesText(s: Bytes) {
    exists cps :: IsText(cps) && TextBytes(cps) == s
  }

  /** Valid are exactly the encodings of text. */
  lemma {:induction false} ValidIsText(s: Bytes)
    ensures ValidUtf8(s) <==> EncodesText(s)
  {
    if ValidUtf8(s) {
      var cps := Characters(s);
    }
    if EncodesText(s) {
      var cps :| IsText(cps) && TextBytes(cps) == s;
      TextIsValid(cps);
    }
  }

  lemma {:induction false} Characters(s: Bytes) returns (cps: seq<nat>)
    requires ValidUtf8(s)
    ensures IsText(cps) && TextBytes(cps) == s
    decreases |s|
  {
    cps := [];
    if s != [] {
      var n := CharLength(s);
      var cp := ReadIsChar(s);
      var rest := Characters(s[n..]);
      hide CharBytes, CharLength, IsCharacter;
      cps := [cp] + rest;
      assert cps[1..] == rest && s == s[..n] + s[n..];
    }
  }

  lemma {:induction false} TextIsValid(cps: seq<nat>)
    requires IsText(cps)
    ensures ValidUtf8(TextBytes(cps))
  {
    if cps != [] {
      var first, rest := CharBytes(cps[0]), TextBytes(cps[1..]);
      CharIsRead(cps[0], rest);
      assert |first| > 0;
      TextIsValid(cps[1..]);
      assert (first + rest)[|first|..] == rest;
    }
  }

  // ------------------------------------------------------------ names in descriptors

  lemma {:induction false} FieldNameIsText(st: RawField, raws: seq<Raw>)
    requires ValidUtf8(st.name)
    ensures var r := Fold(RawFieldStep, st, raws); r.Ok? ==> ValidUtf8(r.value.name)
    decreases |raws|
  {
    hide ValidUtf8;
    if raws != [] && RawFieldStep(st, raws[0].rec).Ok? {
      FieldNameIsText(RawFieldStep(st, raws[0].rec).value, raws[1..]);
    }
  }

  lemma {:induction false} OneofNameIsText(name: Name, raws: seq<Raw>)
    requires ValidUtf8(name)
    ensures var r := Fold(OneofNameStep, name, raws); r.Ok? ==> ValidUtf8(r.value)
    decreases |raws|
  {
    hide ValidUtf8;
    if raws != [] && OneofNameStep(name, raws[0].rec).Ok? {
      OneofNameIsText(OneofNameStep(name, raws[0].rec).value, raws[1..]);
    }
  }

  predicate DraftIsText(d: Draft) {
    && ValidUtf8(d.name) && (forall i :: 0 <= i < |d.raws| ==> ValidUtf8(d.raws[i].name))
    && (forall i :: 0 <= i < |d.oneofs| ==> ValidUtf8(d.oneofs[i]))
  }

  lemma {:induction false} BlobsAreText(data: Bytes)
    ensures ParseRawField(data).Ok? ==> ValidUtf8(ParseRawField(data).value.name)
    ensures ParseOneofName(data).Ok? ==> ValidUtf8(ParseOneofName(data).value)
  {
    FieldNameIsText(NO_FIELD, ScanAll(data).raws);
    OneofNameIsText([], ScanAll(data).raws);
  }

  lemma {:induction false} MoreText(d: Draft, raw: RawField, name: Name)
    requires DraftIsText(d)
    ensures ValidUtf8(name) ==> DraftIsText(d.(name := name)) && DraftIsText(d.(oneofs := d.oneofs + [name]))
    ensures ValidUtf8(raw.name) ==> DraftIsText(d.(raws := d.raws + [raw]))
  {
    hide ValidUtf8;
  }

  lemma {:induction false} StepKeepsText(d: Draft, rec: Record)
    requires DraftIsText(d)
    ensures DraftStep(d, rec).Ok? ==> DraftIsText(DraftStep(d, rec).value)
  {
    hide ValidUtf8, ParseRawField, ParseOneofName, ParseNested, EntryOf;
    match rec
    case Record(1, PLen(data)) => MoreText(d, NO_FIELD, data);
    case Record(2, PLen(data)) =>
      BlobsAreText(data);
      if ParseRawField(data).Ok? {
        MoreText(d, ParseRawField(data).value, []);
      }
    case Record(8, PLen(data)) =>
      BlobsAreText(data);
      if ParseOneofName(data).Ok? {
        MoreText(d, NO_FIELD, ParseOneofName(data).value);
      }
    case _ =>
      assert DraftStep(d, rec).Ok? ==>
        DraftStep(d, rec).value.name == d.name && DraftStep(d, rec).value.raws == d.raws
        && DraftStep(d, rec).value.oneofs == d.oneofs;
  }

  lemma {:induction false} DraftKeepsText(d: Draft, raws: seq<Raw>)
    requires DraftIsText(d)
    ensures var r := Fold(DraftStep, d, raws); r.Ok? ==> DraftIsText(r.value)
    decreases |raws|
  {
    hide DraftIsText;
    if raws != [] {
      StepKeepsText(d, raws[0].rec);
      if DraftStep(d, raws[0].rec).Ok? {
        hide DraftStep;
        DraftKeepsText(DraftStep(d, raws[0].rec).value, raws[1..]);
      }
    }
  }

  /** The names of a parsed message, of its fields and of its oneofs encode text. */
  lemma {:induction false} ParsedNamesAreText(data: Bytes)
    ensures ParseMessage(data).Ok? ==>
      var d := ParseMessage(data).value;
      && EncodesText(d.name) && (forall i :: 0 <= i < |d.oneofs| ==> EncodesText(d.oneofs[i]))
      && (forall i :: 0 <= i < |d.fields| ==> EncodesText(d.fields[i].name))
  {
    var r := Fold(DraftStep, NO_MESSAGE, ScanAll(data).raws);
    DraftKeepsText(NO_MESSAGE, ScanAll(data).raws);
    if ParseMessage(data).Ok? {
      InterpretedNames(r.value.raws, r.value.entries, r.value.name);
      hide ValidUtf8, EncodesText, Fold, ScanAll, InterpretAll;
      var d := ParseMessage(data).value;
      ValidIsText(d.name);
      forall i | 0 <= i < |d.oneofs|
        ensures EncodesText(d.oneofs[i])
      {
        ValidIsText(d.oneofs[i]);
      }
      forall i | 0 <= i < |d.fields|
        ensures EncodesText(d.fields[i].name)
      {
        assert d.fields[i].name == r.value.raws[i].name;
        ValidIsText(d.fields[i].name);
      }
    }
  }

  lemma {:induction false} InterpretedNames(raws: seq<RawField>, entries: map<Name, MapEntry>, message: Name)
    requires InterpretAll(raws, entries, message).Ok?
    ensures var fs := InterpretAll(raws, entries, message).value;
            |fs| == |raws| && forall i :: 0 <= i < |fs| ==> fs[i].name == raws[i].name
    decreases |raws|
  {
    if raws != [] {
      InterpretedNames(raws[1..], entries, message);
    }
  }
}
