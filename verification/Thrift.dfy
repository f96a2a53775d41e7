/** The generated struct readers and writers of src/thrift, over a stream of protocol tokens.
    A struct is described by the ids and types of its fields; each generated `read` switches
    on exactly those and each generated `write` emits exactly those in order. */
module Thrift {

  datatype TType = T_BOOL | T_BYTE | T_I16 | T_I32 | T_I64 | T_DOUBLE | T_STRING | T_STRUCT | T_LIST | T_SET | T_MAP

  datatype Token =
    | StructBegin
    | StructEnd
    | FieldBegin(ftype: TType, fid: int)
    | FieldEnd
    | FieldStop
    | Scalar(value: ScalarValue)
    | ListBegin(elem: TType, size: nat)
    | ListEnd
    | SetBegin(elem: TType, size: nat)
    | SetEnd
    | MapBegin(key: TType, val: TType, size: nat)
    | MapEnd

  datatype ScalarValue =
    | Bool(b: bool)
    | Byte(i8: int)
    | I16(i16: int)
    | I32(i32: int)
    | I64(i64: int)
    | Double(r: real)
    | Str(s: string)
  {
    function Type(): TType {
      match this
      case Bool(_) => T_BOOL
      case Byte(_) => T_BYTE
      case I16(_) => T_I16
      case I32(_) => T_I32
      case I64(_) => T_I64
      case Double(_) => T_DOUBLE
      case Str(_) => T_STRING
    }
  }

  /** Any value that can stand in a field, nested ones included. */
  datatype Value =
    | Leaf(value: ScalarValue)
    | Struct(fields: Fields)
    | List(elem: TType, items: Values)
    | Set(elem: TType, items: Values)
    | Map(key: TType, val: TType, entries: Pairs)
  {
    function Type(): TType {
      match this
      case Leaf(v) => v.Type()
      case Struct(_) => T_STRUCT
      case List(_, _) => T_LIST
      case Set(_, _) => T_SET
      case Map(_, _, _) => T_MAP
    }
  }

  datatype Values = Nil | Cons(head: Value, tail: Values)

  datatype Pairs = NoPairs | Pair(key: Value, value: Value, rest: Pairs)

  datatype Fields = NoFields | Field(fid: int, value: Value, rest: Fields)

  function Count(l: Values): nat {
    match l case Nil => 0 case Cons(_, t) => 1 + Count(t)
  }

  function CountPairs(l: Pairs): nat {
    match l case NoPairs => 0 case Pair(_, _, t) => 1 + CountPairs(t)
  }

  /** Containers hold values of the announced types. */
  predicate WellTyped(v: Value)
    decreases v
  {
    match v
    case Leaf(_) => true
    case Struct(f) => FieldsWellTyped(f)
    case List(e, l) => AllOfType(e, l)
    case Set(e, l) => AllOfType(e, l)
    case Map(k, e, l) => AllPairsOf(k, e, l)
  }

  predicate AllPairsOf(k: TType, e: TType, l: Pairs)
    decreases l
  {
    match l
    case NoPairs => true
    case Pair(x, y, r) => x.Type() == k && WellTyped(x) && y.Type() == e && WellTyped(y) && AllPairsOf(k, e, r)
  }

  predicate AllOfType(t: TType, l: Values)
    decreases l
  {
    match l case Nil => true case Cons(v, r) => v.Type() == t && WellTyped(v) && AllOfType(t, r)
  }

  predicate FieldsWellTyped(f: Fields)
    decreases f
  {
    match f case NoFields => true case Field(_, v, r) => WellTyped(v) && FieldsWellTyped(r)
  }

  // ------------------------------------------------------------------ encoding

  function Encode(v: Value): (r: seq<Token>)
    decreases v
  {
    match v
    case Leaf(s) => [Scalar(s)]
    case Struct(f) => [StructBegin] + EncodeFields(f) + [FieldStop, StructEnd]
    case List(e, l) => [ListBegin(e, Count(l))] + EncodeAll(l) + [ListEnd]
    case Set(e, l) => [SetBegin(e, Count(l))] + EncodeAll(l) + [SetEnd]
    case Map(k, e, l) => [MapBegin(k, e, CountPairs(l))] + EncodePairs(l) + [MapEnd]
  }

  function EncodeAll(l: Values): seq<Token>
    decreases l
  {
    match l case Nil => [] case Cons(v, r) => Encode(v) + EncodeAll(r)
  }

  function EncodePairs(l: Pairs): seq<Token>
    decreases l
  {
    match l case NoPairs => [] case Pair(k, v, r) => Encode(k) + Encode(v) + EncodePairs(r)
  }

  function EncodeFields(f: Fields): seq<Token>
    decreases f
  {
    match f
    case NoFields => []
    case Field(id, v, r) => [FieldBegin(v.Type(), id)] + Encode(v) + [FieldEnd] + EncodeFields(r)
  }

  // ------------------------------------------------------------------ skipping

  /** The stream after some reading, or the protocol exception. */
  datatype Rest = Bad | Left(tokens: seq<Token>)

  function Expect(t: Token, s: seq<Token>): (r: Rest)
    ensures r.Left? ==> |r.tokens| < |s|
  {
    if s != [] && s[0] == t then Left(s[1..]) else Bad
  }

  /** TProtocol::skip. */
  function Skip(ftype: TType, s: seq<Token>): (r: Rest)
    ensures r.Left? ==> |r.tokens| < |s|
    decreases |s|, 0
  {
    if s == [] then Bad
    else
      match ftype
      case T_STRUCT => if s[0] == StructBegin then SkipFields(s[1..]) else Bad
      case T_LIST =>
        if !s[0].ListBegin? then Bad
        else
          var r := SkipMany(s[0].elem, s[0].size, s[1..]);
          if r.Left? then Expect(ListEnd, r.tokens) else Bad
      case T_SET =>
        if !s[0].SetBegin? then Bad
        else
          var r := SkipMany(s[0].elem, s[0].size, s[1..]);
          if r.Left? then Expect(SetEnd, r.tokens) else Bad
      case T_MAP =>
        if !s[0].MapBegin? then Bad
        else
          var r := SkipPairs(s[0].key, s[0].val, s[0].size, s[1..]);
          if r.Left? then Expect(MapEnd, r.tokens) else Bad
      case _ => if s[0].Scalar? && s[0].value.Type() == ftype then Left(s[1..]) else Bad
  }

  function SkipMany(t: TType, n: nat, s: seq<Token>): (r: Rest)
    ensures r.Left? ==> |r.tokens| <= |s|
    decreases |s|, 1, n
  {
    if n == 0 then Left(s)
    else
      var r := Skip(t, s);
      if r.Left? then SkipMany(t, n - 1, r.tokens) else Bad
  }

  function SkipPairs(k: TType, e: TType, n: nat, s: seq<Token>): (r: Rest)
    ensures r.Left? ==> |r.tokens| <= |s|
    decreases |s|, 1, n
  {
    if n == 0 then Left(s)
    else
      var r := Skip(k, s);
      if r.Bad? then Bad
      else
        var r' := Skip(e, r.tokens);
        if r'.Left? then SkipPairs(k, e, n - 1, r'.tokens) else Bad
  }

  /** Fields up to the stop mark and the end of the struct. */
  function SkipFields(s: seq<Token>): (r: Rest)
    ensures r.Left? ==> |r.tokens| < |s|
    decreases |s|, 1, 0
  {
    if s == [] then Bad
    else if s[0] == FieldStop then Expect(StructEnd, s[1..])
    else if !s[0].FieldBegin? then Bad
    else
      var r := Skip(s[0].ftype, s[1..]);
      if r.Bad? then Bad
      else
        var r' := Expect(FieldEnd, r.tokens);
        if r'.Left? then SkipFields(r'.tokens) else Bad
  }

  lemma Bracketed(open: Token, body: seq<Token>, close: Token, rest: seq<Token>)
    ensures var s := [open] + body + [close] + rest;
      s != [] && s[0] == open && s[1..] == body + ([close] + rest)
    ensures Expect(close, [close] + rest) == Left(rest)
  {
  }

  /** Skipping a well-typed value consumes exactly its tokens. */
  lemma {:induction false} SkipEncoded(v: Value, rest: seq<Token>)
    requires WellTyped(v)
    ensures Skip(v.Type(), Encode(v) + rest) == Left(rest)
    decreases v
  {
    hide EncodeFields, EncodeAll, EncodePairs, SkipFields, SkipMany, SkipPairs, FieldsWellTyped, AllOfType, AllPairsOf, Count, CountPairs;
    match v
    case Leaf(x) =>
      assert (Encode(v) + rest)[1..] == rest;
    case Struct(f) =>
      SkipEncodedFields(f, rest);
      assert (Encode(v) + rest)[1..] == EncodeFields(f) + ([FieldStop, StructEnd] + rest);
    case List(e, l) =>
      SkipEncodedAll(e, l, [ListEnd] + rest);
      Bracketed(ListBegin(e, Count(l)), EncodeAll(l), ListEnd, rest);
    case Set(e, l) =>
      SkipEncodedAll(e, l, [SetEnd] + rest);
      Bracketed(SetBegin(e, Count(l)), EncodeAll(l), SetEnd, rest);
    case Map(k, e, l) =>
      SkipEncodedPairs(k, e, l, [MapEnd] + rest);
      Bracketed(MapBegin(k, e, CountPairs(l)), EncodePairs(l), MapEnd, rest);
  }

  lemma {:induction false} SkipEncodedAll(t: TType, l: Values, rest: seq<Token>)
    requires AllOfType(t, l)
    ensures SkipMany(t, Count(l), EncodeAll(l) + rest) == Left(rest)
    decreases l
  {
    hide Encode, Skip, WellTyped;
    match l
    case Nil => assert EncodeAll(l) + rest == rest;
    case Cons(v, r) =>
      SkipEncoded(v, EncodeAll(r) + rest);
      assert EncodeAll(l) + rest == Encode(v) + (EncodeAll(r) + rest);
      SkipEncodedAll(t, r, rest);
  }

  lemma {:induction false} SkipEncodedPairs(k: TType, e: TType, l: Pairs, rest: seq<Token>)
    requires AllPairsOf(k, e, l)
    ensures SkipPairs(k, e, CountPairs(l), EncodePairs(l) + rest) == Left(rest)
    decreases l
  {
    hide Encode, Skip, WellTyped;
    match l
    case NoPairs => assert EncodePairs(l) + rest == rest;
    case Pair(x, y, r) =>
      var tail := EncodePairs(r) + rest;
      SkipEncoded(x, Encode(y) + tail);
      SkipEncoded(y, tail);
      assert EncodePairs(l) + rest == Encode(x) + (Encode(y) + tail);
      SkipEncodedPairs(k, e, r, rest);
  }

  lemma {:induction false} SkipEncodedFields(f: Fields, rest: seq<Token>)
    requires FieldsWellTyped(f)
    ensures SkipFields(EncodeFields(f) + ([FieldStop, StructEnd] + rest)) == Left(rest)
    decreases f
  {
    hide Encode, Skip, WellTyped;
    var s := EncodeFields(f) + ([FieldStop, StructEnd] + rest);
    match f
    case NoFields =>
      assert s == [FieldStop, StructEnd] + rest;
      assert s[1..][1..] == rest;
    case Field(id, v, r) =>
      var tail := EncodeFields(r) + ([FieldStop, StructEnd] + rest);
      SkipEncoded(v, [FieldEnd] + tail);
      assert s[1..] == Encode(v) + ([FieldEnd] + tail);
      assert ([FieldEnd] + tail)[1..] == tail;
      SkipEncodedFields(r, rest);
  }

  // ------------------------------------------------------ generated structures

  /** A declared field: its id and its type, always a scalar one here. */
  datatype Decl = Decl(fid: int, ftype: TType)

  const REQ_PROTO := [Decl(1, T_I32)]
  const ACK_PROTO := [Decl(1, T_STRING)]
  const REQ_CHECK_RESULT := [
    Decl(1, T_STRING), Decl(2, T_I32), Decl(3, T_I32), Decl(4, T_I32), Decl(5, T_STRING),
    Decl(6, T_BYTE), Decl(7, T_I32), Decl(8, T_I32), Decl(9, T_I32), Decl(10, T_I32)]
  const CHECK_RESULT_STRUCT := [
    Decl(1, T_I32), Decl(2, T_I32), Decl(3, T_I32), Decl(4, T_I32), Decl(5, T_STRING)]
  const REQUEST_CHECK_STRUCT := [
    Decl(1, T_I32), Decl(2, T_I32), Decl(3, T_STRING), Decl(4, T_STRING), Decl(5, T_STRING), Decl(6, T_STRING)]

  predicate ScalarType(t: TType) {
    !(t.T_STRUCT? || t.T_LIST? || t.T_SET? || t.T_MAP?)
  }

  predicate Schema(decls: seq<Decl>) {
    && (forall i :: 0 <= i < |decls| ==> ScalarType(decls[i].ftype))
    && (forall i, j :: 0 <= i < j < |decls| ==> decls[i].fid != decls[j].fid)
  }

  lemma GeneratedSchemas()
    ensures Schema(REQ_PROTO) && Schema(ACK_PROTO) && Schema(REQ_CHECK_RESULT)
    ensures Schema(CHECK_RESULT_STRUCT) && Schema(REQUEST_CHECK_STRUCT)
  {
  }

  /** Members by field id, and the ids whose isset flag is true. */
  datatype Record = Record(members: map<int, ScalarValue>, isset: set<int>)

  /** Every declared member is there with its declared type. */
  predicate Fits(decls: seq<Decl>, rec: Record) {
    forall i :: 0 <= i < |decls| ==> decls[i].fid in rec.members && rec.members[decls[i].fid].Type() == decls[i].ftype
  }

  /** The switch in `read`: a declared id with its declared type. */
  predicate Known(decls: seq<Decl>, fid: int, ftype: TType) {
    exists i :: 0 <= i < |decls| && decls[i] == Decl(fid, ftype)
  }

  function Assigned(rec: Record, fid: int, v: ScalarValue): Record {
    Record(rec.members[fid := v], rec.isset + {fid})
  }

  /** A failure keeps what had been assigned when the protocol exception was thrown. */
  datatype ReadResult = Failed(rec: Record) | Read(rec: Record, rest: seq<Token>)

  /** The read loop from some field on. */
  ghost function ReadFields(decls: seq<Decl>, rec: Record, s: seq<Token>): ReadResult
    requires Schema(decls)
    decreases |s|
  {
    if s == [] then Failed(rec)
    else if s[0] == FieldStop then
      var r := Expect(StructEnd, s[1..]);
      if r.Left? then Read(rec, r.tokens) else Failed(rec)
    else if !s[0].FieldBegin? then Failed(rec)
    else
      var r := ReadField(decls, rec, s[0].fid, s[0].ftype, s[1..]);
      if r.Failed? then r
      else
        var r' := Expect(FieldEnd, r.rest);
        if r'.Left? then ReadFields(decls, r.rec, r'.tokens) else Failed(r.rec)
  }

  /** One case of the switch: a known field is read, anything else skipped. */
  ghost function ReadField(decls: seq<Decl>, rec: Record, fid: int, ftype: TType, s: seq<Token>): (r: ReadResult)
    requires Schema(decls)
    ensures r.Read? ==> |r.rest| < |s|
    ensures r.Failed? ==> r.rec == rec
  {
    if Known(decls, fid, ftype) then
      if s != [] && s[0].Scalar? && s[0].value.Type() == ftype
      then Read(Assigned(rec, fid, s[0].value), s[1..])
      else Failed(rec)
    else
      var skipped := Skip(ftype, s);
      if skipped.Left? then Read(rec, skipped.tokens) else Failed(rec)
  }

  ghost function ReadStruct(decls: seq<Decl>, rec: Record, s: seq<Token>): ReadResult
    requires Schema(decls)
  {
    var r := Expect(StructBegin, s);
    if r.Left? then ReadFields(decls, rec, r.tokens) else Failed(rec)
  }

  ghost function OneMeaning(decls: seq<Decl>, rec: Record, id: int, v: Value): Record {
    if Known(decls, id, v.Type()) && v.Leaf? then Assigned(rec, id, v.value) else rec
  }

  /** What a list of fields means to a reader: known ones assign in order, others do nothing. */
  ghost function Meaning(decls: seq<Decl>, rec: Record, f: Fields): Record
    decreases f
  {
    match f
    case NoFields => rec
    case Field(id, v, r) => Meaning(decls, OneMeaning(decls, rec, id, v), r)
  }

  /** Reading any well-formed struct gives the meaning of its fields and consumes exactly its
      tokens. */
  lemma {:induction false} ReadIsMeaning(decls: seq<Decl>, rec: Record, f: Fields, rest: seq<Token>)
    requires Schema(decls) && FieldsWellTyped(f)
    ensures ReadStruct(decls, rec, Encode(Struct(f)) + rest) == Read(Meaning(decls, rec, f), rest)
  {
    hide EncodeFields, ReadFields, Meaning, FieldsWellTyped;
    var s := Encode(Struct(f)) + rest;
    assert s[1..] == EncodeFields(f) + ([FieldStop, StructEnd] + rest);
    FieldsAreMeaning(decls, rec, f, rest);
  }

  lemma {:induction false} FieldsAreMeaning(decls: seq<Decl>, rec: Record, f: Fields, rest: seq<Token>)
    requires Schema(decls) && FieldsWellTyped(f)
    ensures ReadFields(decls, rec, EncodeFields(f) + ([FieldStop, StructEnd] + rest)) ==
      Read(Meaning(decls, rec, f), rest)
    decreases f
  {
    hide Encode, Skip, WellTyped, ReadField, Known, Schema;
    var s := EncodeFields(f) + ([FieldStop, StructEnd] + rest);
    match f
    case NoFields =>
      assert s == [FieldStop, StructEnd] + rest;
      assert s[1..][1..] == rest;
    case Field(id, v, r) =>
      var tail := EncodeFields(r) + ([FieldStop, StructEnd] + rest);
      FieldMeaning(decls, rec, id, v, [FieldEnd] + tail);
      assert s[1..] == Encode(v) + ([FieldEnd] + tail);
      assert ([FieldEnd] + tail)[1..] == tail;
      FieldsAreMeaning(decls, OneMeaning(decls, rec, id, v), r, rest);
  }

  /** One field: read when known, skipped otherwise; its tokens are consumed either way. */
  lemma FieldMeaning(decls: seq<Decl>, rec: Record, id: int, v: Value, rest: seq<Token>)
    requires Schema(decls) && WellTyped(v)
    ensures ReadField(decls, rec, id, v.Type(), Encode(v) + rest) == Read(OneMeaning(decls, rec, id, v), rest)
  {
    if Known(decls, id, v.Type()) {
      KnownScalar(decls, id, v);
      assert Encode(v) + rest == [Scalar(v.value)] + rest;
    } else {
      SkipEncoded(v, rest);
    }
  }

  lemma KnownScalar(decls: seq<Decl>, id: int, v: Value)
    requires Schema(decls) && Known(decls, id, v.Type())
    ensures v.Leaf?
  {
  }

  // ------------------------------------------------------------- truncation

  lemma ExpectMore(t: Token, s: seq<Token>, more: seq<Token>)
    requires Expect(t, s).Left?
    ensures Expect(t, s + more) == Left(Expect(t, s).tokens + more)
  {
    assert (s + more)[1..] == s[1..] + more;
  }

  /** What was skipped is skipped the same way when more tokens follow. */
  lemma {:induction false} SkipMore(ftype: TType, s: seq<Token>, more: seq<Token>)
    requires Skip(ftype, s).Left?
    ensures Skip(ftype, s + more) == Left(Skip(ftype, s).tokens + more)
    decreases |s|, 0
  {
    hide SkipMany, SkipPairs, SkipFields, Expect;
    assert (s + more)[0] == s[0] && (s + more)[1..] == s[1..] + more;
    match ftype
    case T_STRUCT => SkipFieldsMore(s[1..], more);
    case T_LIST =>
      SkipManyMore(s[0].elem, s[0].size, s[1..], more);
      ExpectMore(ListEnd, SkipMany(s[0].elem, s[0].size, s[1..]).tokens, more);
    case T_SET =>
      SkipManyMore(s[0].elem, s[0].size, s[1..], more);
      ExpectMore(SetEnd, SkipMany(s[0].elem, s[0].size, s[1..]).tokens, more);
    case T_MAP =>
      SkipPairsMore(s[0].key, s[0].val, s[0].size, s[1..], more);
      ExpectMore(MapEnd, SkipPairs(s[0].key, s[0].val, s[0].size, s[1..]).tokens, more);
    case _ =>
  }

  lemma {:induction false} SkipManyMore(t: TType, n: nat, s: seq<Token>, more: seq<Token>)
    requires SkipMany(t, n, s).Left?
    ensures SkipMany(t, n, s + more) == Left(SkipMany(t, n, s).tokens + more)
    decreases |s|, 1, n
  {
    hide Skip;
    if n > 0 {
      SkipMore(t, s, more);
      SkipManyMore(t, n - 1, Skip(t, s).tokens, more);
    }
  }

  lemma {:induction false} SkipPairsMore(k: TType, e: TType, n: nat, s: seq<Token>, more: seq<Token>)
    requires SkipPairs(k, e, n, s).Left?
    ensures SkipPairs(k, e, n, s + more) == Left(SkipPairs(k, e, n, s).tokens + more)
    decreases |s|, 1, n
  {
    hide Skip;
    if n > 0 {
      SkipMore(k, s, more);
      SkipMore(e, Skip(k, s).tokens, more);
      SkipPairsMore(k, e, n - 1, Skip(e, Skip(k, s).tokens).tokens, more);
    }
  }

  lemma {:induction false} SkipFieldsMore(s: seq<Token>, more: seq<Token>)
    requires SkipFields(s).Left?
    ensures SkipFields(s + more) == Left(SkipFields(s).tokens + more)
    decreases |s|, 1, 0
  {
    hide Skip, Expect;
    var tail := s[1..];
    assert (s + more)[0] == s[0] && (s + more)[1..] == tail + more;
    if s[0] == FieldStop {
      ExpectMore(StructEnd, tail, more);
    } else {
      SkipMore(s[0].ftype, tail, more);
      var r := Skip(s[0].ftype, tail);
      ExpectMore(FieldEnd, r.tokens, more);
      SkipFieldsMore(Expect(FieldEnd, r.tokens).tokens, more);
    }
  }

  lemma FieldMore(decls: seq<Decl>, rec: Record, fid: int, ftype: TType, s: seq<Token>, more: seq<Token>)
    requires Schema(decls) && ReadField(decls, rec, fid, ftype, s).Read?
    ensures var r := ReadField(decls, rec, fid, ftype, s);
      ReadField(decls, rec, fid, ftype, s + more) == Read(r.rec, r.rest + more)
  {
    hide Skip, Known, Schema;
    if Known(decls, fid, ftype) {
      assert (s + more)[0] == s[0] && (s + more)[1..] == s[1..] + more;
    } else {
      SkipMore(ftype, s, more);
    }
  }

  lemma {:induction false} FieldsMore(decls: seq<Decl>, rec: Record, s: seq<Token>, more: seq<Token>)
    requires Schema(decls) && ReadFields(decls, rec, s).Read?
    ensures var r := ReadFields(decls, rec, s);
      ReadFields(decls, rec, s + more) == Read(r.rec, r.rest + more)
    decreases |s|
  {
    hide ReadField, Expect, Schema;
    var tail := s[1..];
    assert (s + more)[0] == s[0] && (s + more)[1..] == tail + more;
    if s[0] == FieldStop {
      ExpectMore(StructEnd, tail, more);
    } else {
      FieldMore(decls, rec, s[0].fid, s[0].ftype, tail, more);
      var r := ReadField(decls, rec, s[0].fid, s[0].ftype, tail);
      ExpectMore(FieldEnd, r.rest, more);
      FieldsMore(decls, r.rec, Expect(FieldEnd, r.rest).tokens, more);
    }
  }

  /** A struct that reads reads the same with more tokens after it. */
  lemma StructMore(decls: seq<Decl>, rec: Record, s: seq<Token>, more: seq<Token>)
    requires Schema(decls) && ReadStruct(decls, rec, s).Read?
    ensures var r := ReadStruct(decls, rec, s);
      ReadStruct(decls, rec, s + more) == Read(r.rec, r.rest + more)
  {
    hide ReadFields, Schema;
    ExpectMore(StructBegin, s, more);
    FieldsMore(decls, rec, Expect(StructBegin, s).tokens, more);
  }

  /** Every truncation of a well-formed struct is refused. */
  lemma TruncatedFails(decls: seq<Decl>, rec: Record, f: Fields, n: nat)
    requires Schema(decls) && FieldsWellTyped(f) && n < |Encode(Struct(f))|
    ensures ReadStruct(decls, rec, Encode(Struct(f))[..n]).Failed?
  {
    hide ReadStruct, Encode, Schema, FieldsWellTyped, Meaning;
    var s := Encode(Struct(f));
    ReadIsMeaning(decls, rec, f, []);
    assert s + [] == s && s[..n] + s[n..] == s;
    if ReadStruct(decls, rec, s[..n]).Read? {
      StructMore(decls, rec, s[..n], s[n..]);
    }
  }

  // ------------------------------------------------------------------- writing

  /** The fields `write` emits. */
  function Written(decls: seq<Decl>, rec: Record): (f: Fields)
    requires Fits(decls, rec)
    ensures FieldsWellTyped(f)
  {
    if decls == [] then NoFields
    else Field(decls[0].fid, Leaf(rec.members[decls[0].fid]), Written(decls[1..], rec))
  }

  /** Three tokens a member, in declared order. */
  lemma {:induction false} WrittenTokens(decls: seq<Decl>, rec: Record, i: nat)
    requires Fits(decls, rec) && i < |decls|
    ensures var s := EncodeFields(Written(decls, rec));
      && |s| == 3 * |decls|
      && s[3 * i] == FieldBegin(decls[i].ftype, decls[i].fid)
      && s[3 * i + 1] == Scalar(rec.members[decls[i].fid])
      && s[3 * i + 2] == FieldEnd
  {
    var d, tail := decls[0], decls[1..];
    assert forall j :: 0 <= j < |tail| ==> tail[j] == decls[j + 1];
    assert Fits(tail, rec);
    var s, t := EncodeFields(Written(decls, rec)), EncodeFields(Written(tail, rec));
    assert Encode(Leaf(rec.members[d.fid])) == [Scalar(rec.members[d.fid])];
    assert s == [FieldBegin(d.ftype, d.fid), Scalar(rec.members[d.fid]), FieldEnd] + t;
    if i > 0 {
      WrittenTokens(tail, rec, i - 1);
    } else if tail != [] {
      WrittenTokens(tail, rec, 0);
    }
  }

  /** `f` with the fields a reader of `decls` ignores taken out. */
  ghost function OnlyKnown(decls: seq<Decl>, f: Fields): Fields {
    match f
    case NoFields => NoFields
    case Field(id, v, r) =>
      if Known(decls, id, v.Type()) && v.Leaf? then Field(id, v, OnlyKnown(decls, r)) else OnlyKnown(decls, r)
  }

  /** Unknown ids and wrong types never matter, wherever they stand. */
  lemma {:induction false} IgnoresUnknown(decls: seq<Decl>, rec: Record, f: Fields)
    ensures Meaning(decls, rec, OnlyKnown(decls, f)) == Meaning(decls, rec, f)
    decreases f
  {
    match f
    case NoFields =>
    case Field(id, v, r) =>
      if Known(decls, id, v.Type()) && v.Leaf? {
        IgnoresUnknown(decls, Assigned(rec, id, v.value), r);
      } else {
        IgnoresUnknown(decls, rec, r);
      }
  }

  function Ids(decls: seq<Decl>): set<int> {
    set i | 0 <= i < |decls| :: decls[i].fid
  }

  /** `into` with the declared members of `rec` taken over and flagged. */
  function Overlaid(decls: seq<Decl>, rec: Record, into: Record): Record
    requires Fits(decls, rec)
  {
    Record(Over(into.members, rec.members, Ids(decls)), into.isset + Ids(decls))
  }

  /** `into` with the entries of `from` under `ids`. */
  function Over(into: map<int, ScalarValue>, from: map<int, ScalarValue>, ids: set<int>): map<int, ScalarValue>
    requires ids <= from.Keys
  {
    into + map x | x in ids :: from[x]
  }

  lemma OverOne(into: map<int, ScalarValue>, from: map<int, ScalarValue>, id: int, ids: set<int>)
    requires ids <= from.Keys && id in from
    ensures Over(into[id := from[id]], from, ids) == Over(into, from, {id} + ids)
  {
  }

  lemma IdsFirst(decls: seq<Decl>)
    requires decls != []
    ensures Ids(decls) == {decls[0].fid} + Ids(decls[1..])
  {
    var rest := decls[1..];
    assert forall i :: 0 <= i < |rest| ==> rest[i] == decls[i + 1];
    forall x | x in Ids(decls)
      ensures x in {decls[0].fid} + Ids(rest)
    {
      var i :| 0 <= i < |decls| && decls[i].fid == x;
      if i > 0 { assert rest[i - 1].fid == x; }
    }
  }

  lemma OverlaidFirst(decls: seq<Decl>, rec: Record, into: Record)
    requires decls != [] && Fits(decls, rec)
    ensures var d := decls[0];
      && d.fid in rec.members && Fits(decls[1..], rec)
      && Overlaid(decls[1..], rec, Assigned(into, d.fid, rec.members[d.fid])) == Overlaid(decls, rec, into)
  {
    var rest := decls[1..];
    assert forall i :: 0 <= i < |rest| ==> rest[i] == decls[i + 1];
    IdsFirst(decls);
    OverOne(into.members, rec.members, decls[0].fid, Ids(rest));
  }

  /** Reading the fields write emits overlays the declared members, and all of them are known. */
  lemma {:induction false} WrittenMeaning(decls: seq<Decl>, k: nat, rec: Record, into: Record)
    requires Fits(decls, rec) && k <= |decls|
    ensures Fits(decls[k..], rec)
    ensures Meaning(decls, into, Written(decls[k..], rec)) == Overlaid(decls[k..], rec, into)
    ensures OnlyKnown(decls, Written(decls[k..], rec)) == Written(decls[k..], rec)
    decreases |decls| - k
  {
    hide Overlaid;
    if k < |decls| {
      var d := decls[k];
      var v := rec.members[d.fid];
      assert Known(decls, d.fid, v.Type());
      assert decls[k..][0] == d && decls[k..][1..] == decls[k + 1..];
      WrittenMeaning(decls, k + 1, rec, Assigned(into, d.fid, v));
      OverlaidFirst(decls[k..], rec, into);
      assert Written(decls[k..], rec) == Field(d.fid, Leaf(v), Written(decls[k + 1..], rec));
    } else {
      assert decls[k..] == [];
      NothingOverlaid(rec, into);
    }
  }

  lemma NothingOverlaid(rec: Record, into: Record)
    ensures Overlaid([], rec, into) == into
  {
    assert Ids([]) == {};
    assert Overlaid([], rec, into).members == into.members;
  }

  /** `got` is `into` except that every declared member is that of `rec` and is flagged. */
  ghost predicate Restored(decls: seq<Decl>, rec: Record, into: Record, got: Record)
    requires Fits(decls, rec)
  {
    && got.isset == into.isset + Ids(decls)
    && got.members.Keys == into.members.Keys + Ids(decls)
    && (forall i :: 0 <= i < |decls| ==>
          decls[i].fid in got.members && got.members[decls[i].fid] == rec.members[decls[i].fid])
    && (forall x :: x in into.members && x !in Ids(decls) ==> x in got.members && got.members[x] == into.members[x])
  }

  /** Reading what write produced, with any unknown or wrongly typed well-formed fields put
      in between, restores every member, sets exactly the declared isset flags, leaves what is
      not declared, and consumes exactly the struct. Between two structs that have just the
      declared members the result is equal. */
  lemma RoundTrip(decls: seq<Decl>, rec: Record, into: Record, f: Fields, rest: seq<Token>)
    requires Schema(decls) && Fits(decls, rec)
    requires FieldsWellTyped(f) && OnlyKnown(decls, f) == Written(decls, rec)
    ensures var r := ReadStruct(decls, into, Encode(Struct(f)) + rest);
      && r.Read? && r.rest == rest
      && Restored(decls, rec, into, r.rec)
      && (rec.members.Keys == into.members.Keys == Ids(decls) ==> r.rec.members == rec.members)
  {
    ReadIsMeaning(decls, into, f, rest);
    IgnoresUnknown(decls, into, f);
    assert decls[0..] == decls;
    WrittenMeaning(decls, 0, rec, into);
    OverlaidRestores(decls, rec, into);
  }

  lemma OverlaidRestores(decls: seq<Decl>, rec: Record, into: Record)
    requires Fits(decls, rec)
    ensures Restored(decls, rec, into, Overlaid(decls, rec, into))
    ensures rec.members.Keys == into.members.Keys == Ids(decls) ==> Overlaid(decls, rec, into).members == rec.members
  {
    var got := Overlaid(decls, rec, into);
    assert forall i :: 0 <= i < |decls| ==> decls[i].fid in Ids(decls);
    if rec.members.Keys == into.members.Keys == Ids(decls) {
      assert got.members == rec.members;
    }
  }

  /** In particular read undoes write: the writer's own output needs no assumption on its
      fields. */
  lemma WrittenRoundTrip(decls: seq<Decl>, rec: Record, into: Record, rest: seq<Token>)
    requires Schema(decls) && Fits(decls, rec)
    ensures var r := ReadStruct(decls, into, Encode(Struct(Written(decls, rec))) + rest);
      && r.Read? && r.rest == rest
      && Restored(decls, rec, into, r.rec)
      && (rec.members.Keys == into.members.Keys == Ids(decls) ==> r.rec.members == rec.members)
  {
    assert decls[0..] == decls;
    WrittenMeaning(decls, 0, rec, into);
    RoundTrip(decls, rec, into, Written(decls, rec), rest);
  }

  lemma Regroup(out: seq<Token>, a: Token, b: Token, c: Token, tail: seq<Token>)
    ensures out + ([a, b, c] + tail) == out + [a] + [b] + [c] + tail
  {
  }

  // -------------------------------------------------------------------- methods

  /** A generated struct: members and isset flags, updated in place by `Read`. */
  class ThriftStruct {
    const decls: seq<Decl>
    var rec: Record

    constructor (decls: seq<Decl>, rec: Record)
      ensures this.decls == decls && this.rec == rec
    {
      this.decls, this.rec := decls, rec;
    }

    /** write: each declared field in order. */
    method Write() returns (out: seq<Token>)
      requires Schema(decls) && Fits(decls, rec)
      ensures out == Encode(Struct(Written(decls, rec)))
    {
      out := [StructBegin];
      WrittenFrom(0);
      for i := 0 to |decls|
        invariant Fits(decls[i..], rec)
        invariant out + EncodeFields(Written(decls[i..], rec)) == [StructBegin] + EncodeFields(Written(decls, rec))
      {
        WrittenFrom(i);
        WrittenFrom(i + 1);
        var d := decls[i];
        Regroup(out, FieldBegin(d.ftype, d.fid), Scalar(rec.members[d.fid]), FieldEnd,
                EncodeFields(Written(decls[i + 1..], rec)));
        out := out + [FieldBegin(d.ftype, d.fid)];
        out := out + [Scalar(rec.members[d.fid])];
        out := out + [FieldEnd];
      }
      assert decls[|decls|..] == [];
      out := out + [FieldStop];
      out := out + [StructEnd];
    }

    lemma WrittenFrom(i: nat)
      requires Fits(decls, rec) && i <= |decls|
      ensures decls[0..] == decls && Fits(decls[i..], rec)
      ensures i < |decls| ==>
        var d := decls[i];
        EncodeFields(Written(decls[i..], rec)) ==
          [FieldBegin(d.ftype, d.fid), Scalar(rec.members[d.fid]), FieldEnd] +
            EncodeFields(if i + 1 <= |decls| && Fits(decls[i + 1..], rec) then Written(decls[i + 1..], rec) else NoFields)
    {
      assert forall j :: 0 <= j < |decls| - i ==> decls[i..][j] == decls[i + j];
      if i < |decls| {
        var tail := decls[i + 1..];
        assert forall j :: 0 <= j < |tail| ==> tail[j] == decls[i + 1 + j];
        assert decls[i..][1..] == decls[i + 1..];
        assert Encode(Leaf(rec.members[decls[i].fid])) == [Scalar(rec.members[decls[i].fid])];
      }
    }

    /** read: false stands for the protocol exception, which leaves the members read so far. */
    method Read(input: seq<Token>) returns (ok: bool, rest: seq<Token>)
      requires Schema(decls)
      modifies this
      ensures var r := ReadStruct(decls, old(rec), input);
        && ok == r.Read? && rec == r.rec
        && (ok ==> rest == r.rest)
    {
      ok, rest := false, input;
      if input == [] || input[0] != StructBegin { return; }
      rest := input[1..];
      while true
        invariant ReadFields(decls, rec, rest) == ReadStruct(decls, old(rec), input)
        invariant !ok
        decreases |rest|
      {
        if rest == [] { return; }
        var token := rest[0];
        if token == FieldStop {
          rest := rest[1..];
          break;
        }
        if !token.FieldBegin? { return; }
        var known := Declared(token.fid, token.ftype);
        var left := rest[1..];
        if known {
          if left == [] || !left[0].Scalar? || left[0].value.Type() != token.ftype { return; }
          rec := Assigned(rec, token.fid, left[0].value);
          left := left[1..];
        } else {
          var skipped := Skip(token.ftype, left);
          if skipped.Bad? { return; }
          left := skipped.tokens;
        }
        var ended := Expect(FieldEnd, left);
        if ended.Bad? { return; }
        rest := ended.tokens;
      }
      if rest != [] && rest[0] == StructEnd {
        ok, rest := true, rest[1..];
      }
    }

    /** The switch over field ids and their types. */
    method Declared(fid: int, ftype: TType) returns (known: bool)
      requires Schema(decls)
      ensures known <==> Known(decls, fid, ftype)
    {
      known := false;
      for i := 0 to |decls|
        invariant known <==> exists j :: 0 <= j < i && decls[j] == Decl(fid, ftype)
      {
        if decls[i].fid == fid && decls[i].ftype == ftype { known := true; }
      }
    }
  }
}
