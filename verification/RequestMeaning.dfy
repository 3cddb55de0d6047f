/** What the server reads from a request body is exactly what the caller of `CqlRequest` asked for. */
module RequestMeaning {
  import opened Bytes
  import opened CqlReference
  import opened CqlRequest
  import opened ValueCodec
  import opened Wrappers

  /** The arguments a server should see for the values bound to a query. */
  function Bindings(vs: seq<Value>): seq<Bound> {
    if vs == [] then [] else [Some(Content(vs[0]))] + Bindings(vs[1..])
  }

  function Meaning(q: Query): Statement {
    Statement(q.text, Bindings(q.values))
  }

  function Meanings(qs: seq<Query>): seq<Statement> {
    if qs == [] then [] else [Meaning(qs[0])] + Meanings(qs[1..])
  }

  function OptionsOf(s: Settings): Options {
    Options(s.consistency, s.serial, s.timestamp)
  }

  /** The sizes that the protocol can count: 31-bit lengths and 16-bit numbers of values. */
  predicate Fits(q: Query) {
    |q.text| < TWO_31 && |q.values| < TWO_16 && forall i :: 0 <= i < |q.values| ==> |Content(q.values[i])| < TWO_31
  }

  predicate SettingsFit(s: Settings) {
    && 0 <= s.consistency < TWO_16
    && (s.serial.Some? ==> 0 <= s.serial.value < TWO_16)
    && (s.timestamp.Some? ==> -TWO_63 <= s.timestamp.value < TWO_63)
  }

  lemma ShortReads(n: int, rest: seq<Byte>)
    requires 0 <= n < TWO_16
    ensures ReadShort(Encode16(n) + rest) == Some(Reading(n, rest))
  {
    Decode16(n, rest);
    assert (Encode16(n) + rest)[2..] == rest;
  }

  lemma TextReads(t: seq<Byte>, rest: seq<Byte>)
    requires |t| < TWO_31
    ensures ReadLongString(Framed(t) + rest) == Some(Reading(t, rest))
    ensures ReadBytes(Framed(t) + rest) == Some(Reading(Some(t), rest))
  {
    FrameReadsBack(t, rest);
    assert (t + rest)[..|t|] == t && (t + rest)[|t|..] == rest;
  }

  lemma {:induction false} ValuesRead(vs: seq<Value>, rest: seq<Byte>)
    requires forall i :: 0 <= i < |vs| ==> |Content(vs[i])| < TWO_31
    ensures ReadValues(|vs|, EncodeAll(vs) + rest) == Some(Reading(Bindings(vs), rest))
  {
    if vs == [] {
      assert EncodeAll(vs) + rest == rest;
    } else {
      var left := EncodeAll(vs[1..]) + rest;
      assert EncodeAll(vs) + rest == Framed(Content(vs[0])) + left;
      TextReads(Content(vs[0]), left);
      ValuesRead(vs[1..], rest);
    }
  }

  lemma CountedValuesRead(q: Query, rest: seq<Byte>)
    requires Fits(q)
    ensures ReadCountedValues(CountedValues(q.values) + rest) == Some(Reading(Bindings(q.values), rest))
  {
    hide EncodeAll, ReadValues;
    assert CountedValues(q.values) + rest == Encode16(|q.values|) + (EncodeAll(q.values) + rest);
    ShortReads(|q.values|, EncodeAll(q.values) + rest);
    ValuesRead(q.values, rest);
  }

  lemma FlagsRead(w: bool, s: Settings)
    ensures var f := FlagByte(w, s);
            HasFlag(f, 0x01) == w && HasFlag(f, 0x10) == s.serial.Some? && HasFlag(f, 0x20) == s.timestamp.Some? && Supported(f)
  {
  }

  lemma OptionsRead(w: bool, s: Settings)
    requires SettingsFit(s)
    ensures ReadOptions(s.consistency, FlagByte(w, s), OptionBytes(s)) == Some(OptionsOf(s))
  {
    FlagsRead(w, s);
    var stamp := if s.timestamp.Some? then Encode64(s.timestamp.value) else [];
    if s.serial.Some? {
      Decode16(s.serial.value, stamp);
      assert (Encode16(s.serial.value) + stamp)[2..] == stamp;
    } else {
      assert OptionBytes(s) == stamp;
    }
    if s.timestamp.Some? {
      Signed64(s.timestamp.value, []);
      assert stamp + [] == stamp;
    }
  }

  /** The tail of a body: consistency and flags, then the values if the flag says so, then the options. */
  lemma TailReads(w: bool, n: nat, values: seq<Byte>, s: Settings)
    requires SettingsFit(s) && (w ==> n > 0)
    ensures var b := ParameterBytes(w, n, values, s);
            var middle := (if w then Encode16(n) + values else []) + OptionBytes(s);
            ReadShort(b) == Some(Reading(s.consistency, [FlagByte(w, s)] + middle))
            && ReadByte([FlagByte(w, s)] + middle) == Some(Reading(FlagByte(w, s), middle))
  {
    hide OptionBytes, FlagByte;
    var middle := (if w then Encode16(n) + values else []) + OptionBytes(s);
    assert ParameterBytes(w, n, values, s) == Encode16(s.consistency) + ([FlagByte(w, s)] + middle);
    ShortReads(s.consistency, [FlagByte(w, s)] + middle);
  }

  /** One query: the server reads back its text, its values and the settings, and nothing is left over. */
  lemma QueryReads(q: Query, s: Settings)
    requires Fits(q) && SettingsFit(s)
    ensures ReadQuery(QueryBody(q, s)) == Some(QueryMessage(Meaning(q), OptionsOf(s)))
  {
    hide EncodeAll, OptionBytes, ParameterBytes, Encode16, ReadOptions, ReadCountedValues, Framed, FlagByte;
    var w := q.values != [];
    TextReads(q.text, ParameterBytes(w, |q.values|, EncodeAll(q.values), s));
    TailReads(w, |q.values|, EncodeAll(q.values), s);
    FlagsRead(w, s);
    OptionsRead(w, s);
    CountedValuesRead(q, OptionBytes(s));
    assert !w ==> [] + OptionBytes(s) == OptionBytes(s);
  }

  lemma StatementReads(q: Query, rest: seq<Byte>)
    requires Fits(q)
    ensures ReadStatement([0] + QueryBytes(q) + rest) == Some(Reading(Meaning(q), rest))
  {
    hide EncodeAll, Framed, CountedValues, ReadCountedValues, ReadLongString;
    var b := [0] + QueryBytes(q) + rest;
    assert b[1..] == Framed(q.text) + (CountedValues(q.values) + rest);
    TextReads(q.text, CountedValues(q.values) + rest);
    CountedValuesRead(q, rest);
  }

  /** The queries of a batch, each with its kind byte in front. */
  function Statements(qs: seq<Query>): seq<Byte> {
    if qs == [] then [] else [0] + QueryBytes(qs[0]) + Statements(qs[1..])
  }

  lemma {:induction false} StatementsSnoc(qs: seq<Query>, q: Query)
    ensures Statements(qs + [q]) == Statements(qs) + [0] + QueryBytes(q)
  {
    hide QueryBytes;
    if qs == [] {
      assert [q][1..] == [];
      assert Statements([q]) == [0] + QueryBytes(q) + Statements([]);
    } else {
      assert (qs + [q])[0] == qs[0] && (qs + [q])[1..] == qs[1..] + [q];
      StatementsSnoc(qs[1..], q);
    }
  }

  lemma {:induction false} BatchIsStatements(qs: seq<Query>)
    requires qs != []
    ensures [0] + BatchBytes(qs) == Statements(qs)
  {
    hide QueryBytes;
    var k := |qs| - 1;
    assert qs == qs[..k] + [qs[k]];
    StatementsSnoc(qs[..k], qs[k]);
    if k > 0 {
      BatchIsStatements(qs[..k]);
    }
  }

  lemma {:induction false} StatementsRead(qs: seq<Query>, rest: seq<Byte>)
    requires forall i :: 0 <= i < |qs| ==> Fits(qs[i])
    ensures ReadStatements(|qs|, Statements(qs) + rest) == Some(Reading(Meanings(qs), rest))
  {
    hide QueryBytes, ReadStatement, Fits;
    if qs == [] {
      assert Statements(qs) + rest == rest;
    } else {
      var left := Statements(qs[1..]) + rest;
      assert Statements(qs) + rest == [0] + QueryBytes(qs[0]) + left;
      StatementReads(qs[0], left);
      StatementsRead(qs[1..], rest);
    }
  }

  /** Any number of queries: the server reads back all of them, in order, with their values and the settings. */
  lemma BatchReads(kind: Byte, qs: seq<Query>, s: Settings)
    requires qs != [] && |qs| < TWO_16 && SettingsFit(s) && forall i :: 0 <= i < |qs| ==> Fits(qs[i])
    ensures ReadBatch(BatchBody(kind, qs, s)) == Some(BatchMessage(kind, Meanings(qs), OptionsOf(s)))
  {
    hide OptionBytes, ParameterBytes, Encode16, ReadOptions, ReadStatements, ReadShort, FlagByte, BatchBody, Fits;
    var tail := ParameterBytes(false, 0, [], s);
    var after := Encode16(|qs|) + (Statements(qs) + tail);
    BatchShape(kind, qs, s);
    assert ([kind] + after)[1..] == after;
    ShortReads(|qs|, Statements(qs) + tail);
    StatementsRead(qs, tail);
    TailReads(false, 0, [], s);
    OptionsRead(false, s);
    assert [] + OptionBytes(s) == OptionBytes(s);
  }

  lemma BatchShape(kind: Byte, qs: seq<Query>, s: Settings)
    requires qs != []
    ensures BatchBody(kind, qs, s) == [kind] + (Encode16(|qs|) + (Statements(qs) + ParameterBytes(false, 0, [], s)))
  {
    hide ParameterBytes, Encode16, BatchBytes, Statements;
    BatchIsStatements(qs);
    Regrouped([kind], Encode16(|qs|), [0], BatchBytes(qs), ParameterBytes(false, 0, [], s));
  }

  lemma Regrouped(a: seq<Byte>, b: seq<Byte>, c: seq<Byte>, d: seq<Byte>, e: seq<Byte>)
    ensures (a + b + c) + (d + e) == a + (b + ((c + d) + e))
  {
  }

  /** Two requests that put the same bytes on the wire were asked for the same things. */
  lemma BodyDetermined(kind: Byte, other: Byte, qs: seq<Query>, rs: seq<Query>, s: Settings, t: Settings)
    requires qs != [] && rs != [] && (|qs| == 1 <==> |rs| == 1) && |qs| < TWO_16 && |rs| < TWO_16 && SettingsFit(s) && SettingsFit(t)
    requires (forall i :: 0 <= i < |qs| ==> Fits(qs[i])) && (forall i :: 0 <= i < |rs| ==> Fits(rs[i]))
    requires Body(kind, qs, s) == Body(other, rs, t)
    ensures Meanings(qs) == Meanings(rs) && s == t && (|qs| > 1 ==> kind == other)
  {
    hide BatchBody, QueryBody, ReadBatch, ReadQuery, Fits;
    if |qs| == 1 {
      QueryReads(qs[0], s);
      QueryReads(rs[0], t);
      assert qs[1..] == [] && rs[1..] == [];
    } else {
      BatchReads(kind, qs, s);
      BatchReads(other, rs, t);
    }
  }
}
