/**
 `CassandraRequest` (external/brpc/922.patch.new:249-299, 608-751, 1131-1147, 1346-1353): one query is sent as
 a QUERY; a second one turns the request into a BATCH, which moves the values collected so far behind the
 first query and back-patches the number of values of every later one.
 */
module CqlRequest {
  import opened Bytes
  import opened ValueCodec
  import opened ValueIo
  import opened Wrappers

  const OPCODE_QUERY: int := 0x07
  const OPCODE_BATCH: int := 0x0D
  const OPCODE_NONE: int := 0x11
  const BATCH_LOGGED: Byte := 0
  const BATCH_COUNTER: Byte := 2
  const CONSISTENCY_LOCAL_ONE: int := 0x000A

  /** A query as its caller described it: the CQL text and the values bound to it. */
  datatype Query = Query(text: seq<Byte>, values: seq<Value>)

  // ---------------------------------------------------------------------------------------------
  // The bytes of a request
  // ---------------------------------------------------------------------------------------------

  /** <n><value_1>...<value_n> */
  function CountedValues(vs: seq<Value>): seq<Byte> {
    Encode16(|vs|) + EncodeAll(vs)
  }

  /** <string><n><value_1>...<value_n> */
  function QueryBytes(q: Query): seq<Byte> {
    Framed(q.text) + CountedValues(q.values)
  }

  /** The queries of a batch, with the kind byte before each but the first. */
  function BatchBytes(qs: seq<Query>): seq<Byte> {
    if qs == [] then []
    else if |qs| == 1 then QueryBytes(qs[0])
    else BatchBytes(qs[..|qs| - 1]) + [0] + QueryBytes(qs[|qs| - 1])
  }

  /** The settings that follow the queries. */
  datatype Settings = Settings(consistency: int, serial: Option<int>, timestamp: Option<int>)

  function FlagByte(withValues: bool, s: Settings): Byte {
    (if withValues then 0x01 else 0) + (if s.serial.Some? then 0x10 else 0) + (if s.timestamp.Some? then 0x20 else 0)
  }

  function OptionBytes(s: Settings): seq<Byte> {
    (if s.serial.Some? then Encode16(s.serial.value) else []) + (if s.timestamp.Some? then Encode64(s.timestamp.value) else [])
  }

  /** <consistency><flags>[<n><value_1>...<value_n>][<serial_consistency>][<timestamp>] */
  function ParameterBytes(withValues: bool, n: nat, values: seq<Byte>, s: Settings): seq<Byte> {
    Encode16(s.consistency) + [FlagByte(withValues, s)] + (if withValues && n > 0 then Encode16(n) + values else []) + OptionBytes(s)
  }

  /** The QUERY body of section 4.1.4 of the CQL binary protocol v3. */
  function QueryBody(q: Query, s: Settings): seq<Byte> {
    Framed(q.text) + ParameterBytes(q.values != [], |q.values|, EncodeAll(q.values), s)
  }

  /** The BATCH body of section 4.1.7. */
  function BatchBody(kind: Byte, qs: seq<Query>, s: Settings): seq<Byte> {
    ([kind] + Encode16(|qs|) + [0]) + (BatchBytes(qs) + ParameterBytes(false, 0, [], s))
  }

  /** The body for any number of queries; without a query nothing is sent. */
  function Body(kind: Byte, qs: seq<Query>, s: Settings): seq<Byte> {
    if qs == [] then [] else if |qs| == 1 then QueryBody(qs[0], s) else BatchBody(kind, qs, s)
  }

  // ---------------------------------------------------------------------------------------------
  // The text of the convenience queries
  // ---------------------------------------------------------------------------------------------

  function Ascii(s: string): seq<Byte> {
    seq(|s|, i requires 0 <= i < |s| => (s[i] as int) % 0x100)
  }

  function Digits(n: nat): string {
    if n < 10 then [('0' as int + n) as char] else Digits(n / 10) + [('0' as int + n % 10) as char]
  }

  /** The number that a string of decimal digits stands for. */
  function NumberOf(s: string): int {
    if s == [] then 0 else 10 * NumberOf(s[..|s| - 1]) + (s[|s| - 1] as int - '0' as int)
  }

  /** The digits written for a number are decimal digits, without a leading zero, that stand for it. */
  lemma {:induction false} DigitsReadBack(n: nat)
    ensures NumberOf(Digits(n)) == n && Digits(n) != [] && (|Digits(n)| > 1 ==> Digits(n)[0] != '0')
    ensures forall i :: 0 <= i < |Digits(n)| ==> '0' <= Digits(n)[i] <= '9'
  {
    if n >= 10 {
      DigitsReadBack(n / 10);
      assert Digits(n)[..|Digits(n)| - 1] == Digits(n / 10);
      assert n / 10 < 10 ==> Digits(n / 10) == [('0' as int + n / 10) as char];
    } else {
      assert Digits(n)[..0] == [];
    }
  }

  function Abs(n: int): nat {
    if n < 0 then -n else n
  }

  function Flat(pieces: seq<seq<Byte>>): seq<Byte> {
    if pieces == [] then [] else Flat(pieces[..|pieces| - 1]) + pieces[|pieces| - 1]
  }

  /** The pieces of text that `Insert`, `Add` and `Delete` append one after the other. */
  function InsertPieces(table: seq<Byte>, key: seq<Byte>, column: seq<Byte>, ttl: int): seq<seq<Byte>> {
    [Ascii("INSERT INTO "), table, Ascii(" ("), key, Ascii(", "), column, Ascii(") VALUES (?, ?)")]
    + if ttl > 0 then [Ascii("USING TTL "), Ascii(Digits(ttl))] else []
  }

  function AddPieces(table: seq<Byte>, key: seq<Byte>, counter: seq<Byte>, count: int): seq<seq<Byte>> {
    [Ascii("UPDATE "), table, Ascii(" set "), counter, Ascii("="), counter, Ascii(if count > 0 then "+" else "-"),
     Ascii(Digits(Abs(count))), Ascii(" WHERE "), key, Ascii("=?")]
  }

  function DeletePieces(table: seq<Byte>, key: seq<Byte>, column: seq<Byte>): seq<seq<Byte>> {
    [Ascii("Delete "), column, Ascii(" FROM "), table, Ascii(" WHERE "), key, Ascii("=?")]
  }

  // ---------------------------------------------------------------------------------------------
  // The request
  // ---------------------------------------------------------------------------------------------

  /** The value of a back-patched buffer once the pending patch is made. */
  function Patch(query: seq<Byte>, area: Option<nat>, n: nat): seq<Byte> {
    match area
    case None => query
    case Some(a) => if a + 2 <= |query| then query[..a] + Encode16(n) + query[a + 2..] else query
  }

  function Last(qs: seq<Query>): Query
    requires qs != []
  {
    qs[|qs| - 1]
  }

  /** `qs` with `v` bound to its last query. */
  function Bind(qs: seq<Query>, v: Value): seq<Query>
    requires qs != []
  {
    qs[|qs| - 1 := Last(qs).(values := Last(qs).values + [v])]
  }

  lemma BindKeepsOthers(qs: seq<Query>, v: Value)
    requires qs != []
    ensures |Bind(qs, v)| == |qs| && |Last(Bind(qs, v)).values| == |Last(qs).values| + 1
    ensures forall i :: 0 <= i < |qs| - 1 ==> Bind(qs, v)[i] == qs[i]
  {
  }

  lemma BatchBytesSnoc(qs: seq<Query>, q: Query)
    requires qs != []
    ensures BatchBytes(qs + [q]) == BatchBytes(qs) + [0] + QueryBytes(q)
  {
    assert (qs + [q])[..|qs|] == qs;
  }

  class Request {
    var opcode: int
    var batchType: Byte
    var count: nat
    var currValues: nat
    var area: Option<nat>
    var query: seq<Byte>
    var withValues: bool
    var numValues: nat
    var nameValue: seq<Byte>
    var settings: Settings

    /** What the caller has asked for so far; `early` holds values bound before there was any query. */
    ghost var queries: seq<Query>
    ghost var early: seq<Value>

    ghost predicate Values(vs: seq<Value>)
      reads this
    {
      numValues == |vs| && nameValue == EncodeAll(vs) && withValues == (vs != [])
    }

    ghost predicate Single()
      reads this
    {
      && area == None && currValues == 0
      && if queries == [] then query == [] && Values(early) && opcode == OPCODE_NONE
         else early == [] && query == Framed(queries[0].text) && Values(queries[0].values) && opcode == OPCODE_QUERY
    }

    ghost predicate Batched()
      reads this
      requires queries != []
    {
      && opcode == OPCODE_BATCH && early == [] && Values([])
      && Patch(query, area, currValues) == BatchBytes(queries)
      && (area == None ==> currValues == 0)
      && (area.Some? ==> PendingAt(area.value))
    }

    /** The last query's number of values is still to be written at offset `a`. */
    ghost predicate PendingAt(a: nat)
      reads this
      requires queries != []
    {
      && a + 2 <= |query| && currValues == |Last(queries).values| && query[a + 2..] == EncodeAll(Last(queries).values)
      && (currValues == 0 ==> query[a..a + 2] == Encode16(0))
    }

    /** The request's bytes say what its caller asked for; the protocol counts queries and values in 16 bits. */
    ghost predicate Valid()
      reads this
    {
      && count == |queries| < TWO_16 && |early| < TWO_16
      && (forall i :: 0 <= i < |queries| ==> |queries[i].values| < TWO_16)
      && if count <= 1 then Single() else Batched()
    }

    predicate IsBatchMode()
      reads this
    {
      count > 1
    }

    /** A batch in which values were bound with no bytes reserved for their number: the next `CHECK` will fire. */
    ghost predicate Stuck()
      reads this
    {
      && 1 < count == |queries| < TWO_16 && query != [] && early == [] && area == None && 0 < currValues <= |Last(queries).values|
      && forall i :: 0 <= i < |queries| ==> |queries[i].values| < TWO_16
    }

    lemma Phases()
      ensures !(Valid() && Stuck())
      ensures Valid() || Stuck() ==> (queries != [] ==> early == []) && (|queries| <= 1 ==> area == None)
      ensures Stuck() ==> |queries| > 1 && area == None
    {
      hide EncodeAll, BatchBytes, Framed;
    }

    constructor ()
      ensures Valid() && queries == [] && early == [] && area == None && batchType == BATCH_LOGGED
      ensures settings == Settings(CONSISTENCY_LOCAL_ONE, None, None)
    {
      opcode, batchType, count, currValues, area := OPCODE_NONE, BATCH_LOGGED, 0, 0, None;
      query, withValues, numValues, nameValue := [], false, 0, [];
      settings := Settings(CONSISTENCY_LOCAL_ONE, None, None);
      queries, early := [], [];
    }

    /** Writes the pending number of values, if there is one; the `CHECK` fires when it has nowhere to go. */
    method EncodeValuesNumberOfLastBatchedQuery() returns (ok: bool)
      requires area.Some? ==> area.value + 2 <= |query|
      modifies this`query, this`currValues, this`area
      ensures ok <==> old(currValues) == 0 || old(area).Some?
      ensures ok ==> query == (if old(currValues) == 0 then old(query) else Patch(old(query), old(area), old(currValues)))
      ensures ok ==> area == None && currValues == 0
    {
      if currValues > 0 {
        if area == None {
          return false;
        }
        var a := area.value;
        query := query[..a] + Encode16(currValues) + query[a + 2..];
        currValues := 0;
      }
      area := None;
      ok := true;
    }

    /** A request that is sound can write its pending number. */
    lemma PendingIsWritten()
      requires Valid() && count > 1
      ensures (currValues == 0 || area.Some?) && (area.Some? ==> area.value + 2 <= |query|)
      ensures (if currValues == 0 then query else Patch(query, area, currValues)) == BatchBytes(queries)
    {
      hide EncodeAll, BatchBytes;
      if currValues == 0 && area.Some? {
        var a := area.value;
        assert query == query[..a] + query[a..a + 2] + query[a + 2..];
      }
    }

    /** `CqlQueryParameter::MoveValuesTo`. */
    method MoveValuesToQuery()
      modifies this`query, this`withValues, this`numValues, this`nameValue
      requires numValues == 0 ==> nameValue == []
      ensures query == old(query) + Encode16(old(numValues)) + old(nameValue)
      ensures !withValues && numValues == 0 && nameValue == []
    {
      withValues := false;
      query := query + Encode16(numValues);
      if numValues > 0 {
        query := query + nameValue;
        nameValue := [];
      }
      numValues := 0;
    }

    /** The second query makes a batch: the values of the first one move behind its text. */
    method TurnIntoBatch()
      requires Valid() && count == 1
      modifies this`opcode, this`query, this`withValues, this`numValues, this`nameValue
      ensures opcode == OPCODE_BATCH && query == BatchBytes(queries) && Values([])
    {
      hide Encode16;
      opcode := OPCODE_BATCH;
      ghost var q := queries[0];
      assert q.values == [] ==> EncodeAll(q.values) == [];
      MoveValuesToQuery();
      assert query == Framed(q.text) + (Encode16(|q.values|) + EncodeAll(q.values));
    }

    /**
     Between this call and the writing of the new query's text the request is not `Valid`.  The result says
     whether the `CHECK` on the way passed, here and in all methods that get this far.
     */
    method HandleBatchQueryAtBeginningIfNeeded() returns (ok: bool)
      requires Valid() || Stuck()
      modifies this`opcode, this`count, this`query, this`area, this`currValues, this`withValues, this`numValues, this`nameValue
      ensures ok <==> old(Valid())
      ensures ok ==> count == (|queries| + 1) % TWO_16 && area == None && currValues == 0
      ensures ok && queries == [] ==> opcode == OPCODE_QUERY && query == [] && Values(early)
      ensures ok && queries != [] ==> opcode == OPCODE_BATCH && query == BatchBytes(queries) + [0] && Values([]) && early == []
    {
      hide EncodeAll, BatchBytes, Framed, Encode16;
      ok := true;
      if count == 0 {
        opcode := OPCODE_QUERY;
      } else {
        ok := OpenBatchedQuery();
        if !ok {
          return;
        }
      }
      count := (count + 1) % TWO_16;
    }

    /** Makes the request a batch if it is not one yet, or settles its pending count, and writes the next query's kind. */
    method OpenBatchedQuery() returns (ok: bool)
      requires (Valid() || Stuck()) && count >= 1
      modifies this`opcode, this`query, this`area, this`currValues, this`withValues, this`numValues, this`nameValue
      ensures ok <==> old(Valid())
      ensures ok ==> area == None && currValues == 0 && count == |queries| && early == []
      ensures ok ==> opcode == OPCODE_BATCH && query == BatchBytes(queries) + [0] && Values([])
    {
      hide EncodeAll, BatchBytes, Framed, Encode16;
      Phases();
      if count == 1 {
        TurnIntoBatch();
        ok := true;
      } else {
        ok := CloseCount();
        if !ok {
          return;
        }
      }
      query := query + [0];
    }

    /** Settles the number of values of the last batched query. */
    method CloseCount() returns (ok: bool)
      requires (Valid() || Stuck()) && count > 1
      modifies this`query, this`currValues, this`area
      ensures ok <==> old(Valid())
      ensures ok ==> Valid() && query == BatchBytes(queries) && area == None && currValues == 0
    {
      hide EncodeAll, BatchBytes, Framed, Encode16;
      Phases();
      if Valid() {
        PendingIsWritten();
      }
      ok := EncodeValuesNumberOfLastBatchedQuery();
    }

    /** Reserves the length of the text, appends its pieces and patches the length in. */
    method WriteText(pieces: seq<seq<Byte>>, garbage: seq<Byte>)
      requires |garbage| == 4
      modifies this`query
      ensures query == old(query) + Framed(Flat(pieces))
    {
      ghost var head := query;
      var a := |query|;
      query := query + garbage;
      var begin := |query|;
      var i := 0;
      while i < |pieces|
        invariant 0 <= i <= |pieces| && query == head + garbage + Flat(pieces[..i])
      {
        query := query + pieces[i];
        assert pieces[..i + 1][..i] == pieces[..i];
        i := i + 1;
      }
      assert pieces[..i] == pieces;
      query := query[..a] + Encode32(|query| - begin) + query[a + 4..];
    }

    method AppendValue(v: Value)
      modifies this`withValues, this`nameValue, this`numValues
      ensures withValues && nameValue == old(nameValue) + Encode(v) && numValues == (old(numValues) + 1) % TWO_16
    {
      withValues := true;
      nameValue := nameValue + Encode(v);
      numValues := (numValues + 1) % TWO_16;
    }

    method AppendValues(vs: seq<Value>)
      requires vs != [] && numValues < TWO_16
      modifies this`withValues, this`nameValue, this`numValues
      ensures withValues && nameValue == old(nameValue) + EncodeAll(vs) && numValues == (old(numValues) + |vs|) % TWO_16
    {
      hide EncodeAll, Encode;
      NothingEncoded();
      assert vs[..0] == [];
      var i := 0;
      while i < |vs|
        invariant 0 <= i <= |vs| && numValues == (old(numValues) + i) % TWO_16 && nameValue == old(nameValue) + EncodeAll(vs[..i])
        invariant i > 0 ==> withValues
      {
        EncodeAllSnoc(vs[..i], vs[i]);
        assert vs[..i] + [vs[i]] == vs[..i + 1];
        AppendValue(vs[i]);
        i := i + 1;
      }
      assert vs[..i] == vs;
    }

    method WriteValues(vs: seq<Value>)
      modifies this`query
      ensures query == old(query) + CountedValues(vs)
    {
      hide EncodeAll, Encode, Encode16;
      NothingEncoded();
      assert vs[..0] == [];
      query := query + Encode16(|vs|);
      ghost var head := query;
      var i := 0;
      while i < |vs|
        invariant 0 <= i <= |vs| && query == head + EncodeAll(vs[..i])
      {
        EncodeAllSnoc(vs[..i], vs[i]);
        assert vs[..i] + [vs[i]] == vs[..i + 1];
        query := query + Encode(vs[i]);
        i := i + 1;
      }
      assert vs[..i] == vs;
    }

    /** The request after the text of query number `count` has been written and before its values are. */
    ghost predicate TextWritten(text: seq<Byte>)
      reads this
    {
      && |queries| < TWO_16 && count == (|queries| + 1) % TWO_16 && area == None && currValues == 0 && |early| < TWO_16
      && (forall i :: 0 <= i < |queries| ==> |queries[i].values| < TWO_16)
      && (queries == [] ==> opcode == OPCODE_QUERY && query == Framed(text) && Values(early))
      && (queries != [] ==> opcode == OPCODE_BATCH && query == BatchBytes(queries) + [0] + Framed(text) && Values([]) && early == [])
    }

    /** The protocol's 16-bit counts can hold what was asked for. */
    ghost predicate Countable()
      reads this
    {
      |queries| < TWO_16 && |early| < TWO_16 && forall i :: 0 <= i < |queries| ==> |queries[i].values| < TWO_16
    }

    /** Binds the values of the query just written, as `Insert`, `Add` and `Delete` do. */
    method BindValues(vs: seq<Value>, ghost text: seq<Byte>)
      requires TextWritten(text) && vs != [] && |vs| < TWO_16
      modifies this
      ensures queries == old(queries) + [Query(text, old(early) + vs)] && count == |queries| % TWO_16
      ensures (Valid() <==> Countable()) && early == [] && area == None
      ensures batchType == old(batchType) && settings == old(settings)
    {
      hide EncodeAll, Framed, BatchBytes;
      if IsBatchMode() {
        assert early + vs == vs;
        BindInBatch(vs, text);
      } else {
        BindToOnlyQuery(vs, text);
      }
    }

    /** Outside a batch the values are collected beside the query. */
    method BindToOnlyQuery(vs: seq<Value>, ghost text: seq<Byte>)
      requires TextWritten(text) && count <= 1 && vs != []
      modifies this
      ensures queries == old(queries) + [Query(text, old(early) + vs)] && count == |queries| % TWO_16
      ensures (Valid() <==> Countable()) && early == [] && area == None
      ensures batchType == old(batchType) && settings == old(settings)
    {
      hide EncodeAll, Framed, BatchBytes;
      AppendValues(vs);
      EncodeAllConcat(early, vs);
      assert queries != [] ==> |queries| + 1 == TWO_16;
      queries, early := queries + [Query(text, early + vs)], [];
    }

    /** In a batch they follow the text of the query, counted. */
    method BindInBatch(vs: seq<Value>, ghost text: seq<Byte>)
      requires TextWritten(text) && count > 1 && |vs| < TWO_16
      modifies this`query, this`queries
      ensures Valid() && Countable() && count == |queries| % TWO_16 && queries == old(queries) + [Query(text, vs)] && early == []
    {
      hide EncodeAll, Framed, BatchBytes, CountedValues;
      WriteValues(vs);
      BatchBytesAppend(queries, Query(text, vs));
      queries := queries + [Query(text, vs)];
    }

    /** Makes room for one more query and writes its text. */
    method BeginQuery(pieces: seq<seq<Byte>>, garbage: seq<Byte>) returns (ok: bool)
      requires (Valid() || Stuck()) && |garbage| == 4
      modifies this
      ensures (ok <==> old(Valid())) && (ok ==> TextWritten(Flat(pieces))) && queries == old(queries) && early == old(early)
      ensures batchType == old(batchType) && settings == old(settings)
    {
      hide Flat, Framed, EncodeAll, BatchBytes, Valid, Stuck;
      if Valid() {
        CountsFit();
      }
      ok := HandleBatchQueryAtBeginningIfNeeded();
      if !ok {
        return;
      }
      WriteText(pieces, garbage);
      NothingBefore(Framed(Flat(pieces)));
    }

    lemma CountsFit()
      requires Valid()
      ensures |early| < TWO_16 && count == |queries| < TWO_16 && forall i :: 0 <= i < |queries| ==> |queries[i].values| < TWO_16
    {
    }

    method Insert(keyName: seq<Byte>, key: Value, column: seq<Byte>, value: Value, table: seq<Byte>, ttl: int, garbage: seq<Byte>)
      returns (ok: bool)
      requires (Valid() || Stuck()) && |garbage| == 4
      modifies this
      ensures (ok <==> old(Valid())) && batchType == old(batchType) && settings == old(settings)
      ensures ok ==> (Valid() <==> Countable()) && early == [] && area == None
      ensures ok ==> queries == old(queries) + [Query(Flat(InsertPieces(table, keyName, column, ttl)), old(early) + [key, value])]
    {
      hide InsertPieces, Flat, Valid, TextWritten, Stuck;
      var pieces := InsertPieces(table, keyName, column, ttl);
      ok := BeginQuery(pieces, garbage);
      if !ok {
        return;
      }
      BindValues([key, value], Flat(pieces));
    }

    method Add(keyName: seq<Byte>, key: Value, counter: seq<Byte>, step: int, table: seq<Byte>, garbage: seq<Byte>)
      returns (ok: bool)
      requires (Valid() || Stuck()) && |garbage| == 4
      modifies this
      ensures (ok <==> old(Valid())) && settings == old(settings)
      ensures ok ==> (Valid() <==> Countable()) && early == [] && area == None
      ensures ok ==> batchType == (if old(queries) == [] || |queries| == TWO_16 then old(batchType) else BATCH_COUNTER)
      ensures ok ==> queries == old(queries) + [Query(Flat(AddPieces(table, keyName, counter, step)), old(early) + [key])]
    {
      hide AddPieces, Flat, Valid, TextWritten, Stuck;
      if Valid() {
        CountsFit();
      }
      var pieces := AddPieces(table, keyName, counter, step);
      ok := BeginQuery(pieces, garbage);
      if !ok {
        return;
      }
      BindValues([key], Flat(pieces));
      if IsBatchMode() {
        MarkCounter();
      }
    }

    /** A batch with a counter update is a counter batch. */
    method MarkCounter()
      modifies this`batchType
      ensures (Valid() <==> old(Valid())) && batchType == BATCH_COUNTER
    {
      hide EncodeAll, BatchBytes, Framed;
      batchType := BATCH_COUNTER;
    }

    method Delete(keyName: seq<Byte>, key: Value, column: seq<Byte>, table: seq<Byte>, garbage: seq<Byte>) returns (ok: bool)
      requires (Valid() || Stuck()) && |garbage| == 4
      modifies this
      ensures (ok <==> old(Valid())) && batchType == old(batchType) && settings == old(settings)
      ensures ok ==> (Valid() <==> Countable()) && early == [] && area == None
      ensures ok ==> queries == old(queries) + [Query(Flat(DeletePieces(table, keyName, column)), old(early) + [key])]
    {
      hide DeletePieces, Flat, Valid, TextWritten, Stuck;
      var pieces := DeletePieces(table, keyName, column);
      ok := BeginQuery(pieces, garbage);
      if !ok {
        return;
      }
      BindValues([key], Flat(pieces));
    }

    /** `CqlEncodeLongString` of the query's text. */
    method AppendText(text: seq<Byte>)
      modifies this`query
      ensures query == old(query) + Framed(text)
    {
      query := query + Encode32(|text|);
      query := query + text;
    }

    method ExecuteCql3Query(text: seq<Byte>) returns (ok: bool)
      requires Valid() || Stuck()
      modifies this
      ensures (ok <==> old(Valid())) && batchType == old(batchType) && settings == old(settings)
      ensures ok ==> queries == old(queries) + [Query(text, old(early))] && (Valid() <==> Countable()) && early == []
      ensures ok && |queries| < TWO_16 ==> (area.Some? <==> old(queries) != [])
    {
      hide Valid, TextWritten, Stuck;
      if Valid() {
        CountsFit();
      }
      ok := BeginText(text);
      if !ok {
        return;
      }
      if IsBatchMode() {
        OpenCount(text);
      } else {
        CloseText(text);
      }
    }

    /** The same for a query whose text the caller gives whole. */
    method BeginText(text: seq<Byte>) returns (ok: bool)
      requires Valid() || Stuck()
      modifies this
      ensures (ok <==> old(Valid())) && queries == old(queries) && early == old(early)
      ensures ok ==> TextWritten(text) && count == (|queries| + 1) % TWO_16 && area == None && (queries != [] ==> early == [])
      ensures batchType == old(batchType) && settings == old(settings)
    {
      hide EncodeAll, BatchBytes, Framed, Valid, Stuck;
      if Valid() {
        CountsFit();
      }
      ok := HandleBatchQueryAtBeginningIfNeeded();
      if !ok {
        return;
      }
      AppendText(text);
      NothingBefore(Framed(text));
    }

    /** The only query takes over the values bound before it. */
    ghost method CloseText(text: seq<Byte>)
      requires TextWritten(text) && count <= 1
      modifies this`queries, this`early
      ensures queries == old(queries) + [Query(text, old(early))] && (Valid() <==> Countable()) && early == []
    {
      hide EncodeAll, BatchBytes, Framed;
      assert queries != [] ==> |queries| + 1 == TWO_16;
      queries, early := queries + [Query(text, early)], [];
    }

    /** In a batch the number of values is reserved as zero and patched when it is known. */
    method OpenCount(text: seq<Byte>)
      requires TextWritten(text) && count > 1
      modifies this
      ensures Valid() && Countable() && queries == old(queries) + [Query(text, [])] && early == []
      ensures area.Some? && batchType == old(batchType) && settings == old(settings)
    {
      hide EncodeAll, Framed, BatchBytes;
      ghost var q := Query(text, []);
      area := Some(|query|);
      query := query + Encode16(currValues);
      NothingEncoded();
      BatchBytesAppend(queries, q);
      queries := queries + [q];
    }

    /**
     Binds a value to the last query.  The request stays sound exactly if the value can be counted and, in a
     batch, the last query was opened by `ExecuteCql3Query` since the last `EncodeTo`; otherwise no bytes are
     reserved for its number of values, and the `CHECK` in `EncodeValuesNumberOfLastBatchedQuery` will fire.
     */
    method AppendQueryParameterValue(v: Value)
      requires Valid() || Stuck()
      modifies this
      ensures area == old(area) && count == old(count) && batchType == old(batchType) && settings == old(settings)
      ensures old(queries) == [] ==> queries == [] && early == old(early) + [v]
      ensures old(queries) != [] ==> queries == Bind(old(queries), v) && early == []
      ensures Valid() <==> old(Valid()) && Countable() && (|queries| > 1 ==> area.Some?)
      ensures Stuck() <==> |queries| > 1 && area == None && Countable()
    {
      hide Encode, EncodeAll, Framed, BatchBytes, Encode16;
      Phases();
      if IsBatchMode() {
        AppendBatchedValue(v);
      } else {
        EncodeAllSnoc(if queries == [] then early else queries[0].values, v);
        AppendValue(v);
        if queries == [] {
          early := early + [v];
        } else {
          queries := Bind(queries, v);
        }
      }
    }

    method AppendBatchedValue(v: Value)
      requires (Valid() || Stuck()) && count > 1
      modifies this`query, this`currValues, this`queries
      ensures queries == Bind(old(queries), v)
      ensures Valid() <==> Countable() && area.Some?
      ensures Stuck() <==> Countable() && area == None
    {
      hide Encode, EncodeAll, Framed, BatchBytes, Encode16, Patch;
      if area.Some? {
        AppendPatched(query, area.value, queries, v);
      } else if Valid() {
        PendingIsWritten();
        NotEmpty(queries);
      }
      query := query + Encode(v);
      currValues := (currValues + 1) % TWO_16;
      BindKeepsOthers(queries, v);
      queries := Bind(queries, v);
    }

    method SetConsistency(level: int)
      modifies this`settings
      ensures (Valid() <==> old(Valid())) && (Stuck() <==> old(Stuck())) && settings == old(settings).(consistency := level)
    {
      settings := settings.(consistency := level);
    }

    method SetSerialConsistency(level: int)
      modifies this`settings
      ensures (Valid() <==> old(Valid())) && (Stuck() <==> old(Stuck())) && settings == old(settings).(serial := Some(level))
    {
      settings := settings.(serial := Some(level));
    }

    method SetTimestamp(ts: int)
      modifies this`settings
      ensures (Valid() <==> old(Valid())) && (Stuck() <==> old(Stuck())) && settings == old(settings).(timestamp := Some(ts))
    {
      settings := settings.(timestamp := Some(ts));
    }

    /** `CqlEncodeQueryParameter`. */
    method EncodeParameter(buf: IOBuf)
      modifies buf
      ensures buf.bytes == old(buf.bytes) + ParameterBytes(withValues, numValues, nameValue, settings)
    {
      hide Encode16, FlagByte, OptionBytes;
      buf.AppendBytes(Encode16(settings.consistency));
      buf.PushBack(FlagByte(withValues, settings));
      if withValues && numValues > 0 {
        buf.AppendBytes(Encode16(numValues));
        buf.AppendBytes(nameValue);
      }
      buf.AppendBytes(OptionBytes(settings));
    }

    /** The head of a BATCH body; also writes the number of values that is still pending. */
    method EncodeBatchQueries(buf: IOBuf) returns (ok: bool)
      requires (Valid() || Stuck()) && count > 1
      modifies this`query, this`currValues, this`area, buf
      ensures ok <==> old(Valid())
      ensures ok ==> Valid() && query == BatchBytes(queries) && area == None
      ensures ok ==> buf.bytes == old(buf.bytes) + ([batchType] + Encode16(|queries|) + [0])
    {
      hide EncodeAll, BatchBytes, Encode16;
      buf.PushBack(batchType);
      buf.AppendBytes(Encode16(count));
      buf.PushBack(0);
      ok := CloseCount();
    }

    method EncodeRest(buf: IOBuf)
      modifies buf
      ensures buf.bytes == old(buf.bytes) + (query + ParameterBytes(withValues, numValues, nameValue, settings))
    {
      hide ParameterBytes;
      buf.AppendBytes(query);
      EncodeParameter(buf);
    }

    /** Appends the body for exactly the queries asked for, and leaves the request ready to be encoded again. */
    method EncodeTo(buf: IOBuf) returns (ok: bool)
      requires Valid() || Stuck()
      modifies this`query, this`currValues, this`area, buf
      ensures ok <==> old(Valid())
      ensures ok ==> Valid() && buf.bytes == old(buf.bytes) + Body(batchType, queries, settings) && area == None
    {
      hide EncodeAll, ParameterBytes, Encode16, BatchBytes, Framed;
      ok := true;
      if query == [] {
        if queries != [] {
          NotEmpty(queries);
        }
        return;
      }
      if IsBatchMode() {
        ghost var start := buf.bytes;
        ok := EncodeBatchQueries(buf);
        if !ok {
          return;
        }
        EncodeRest(buf);
        NothingEncoded();
        Assoc(start, [batchType] + Encode16(|queries|) + [0], BatchBytes(queries) + ParameterBytes(false, 0, [], settings));
      } else {
        EncodeRest(buf);
      }
    }
  }

  lemma NothingBefore(a: seq<Byte>)
    ensures [] + a == a
  {
  }

  lemma Assoc(a: seq<Byte>, b: seq<Byte>, c: seq<Byte>)
    ensures (a + b) + c == a + (b + c)
  {
  }

  lemma {:induction false} EncodeAllConcat(a: seq<Value>, b: seq<Value>)
    ensures EncodeAll(a + b) == EncodeAll(a) + EncodeAll(b)
  {
    hide EncodeAll, Encode;
    if b == [] {
      assert a + b == a;
      NothingEncoded();
    } else {
      var k := |b| - 1;
      EncodeAllConcat(a, b[..k]);
      EncodeAllSnoc(b[..k], b[k]);
      EncodeAllSnoc(a + b[..k], b[k]);
      assert b[..k] + [b[k]] == b && (a + b[..k]) + [b[k]] == a + b;
      Assoc(EncodeAll(a), EncodeAll(b[..k]), Encode(b[k]));
    }
  }

  lemma NotEmpty(qs: seq<Query>)
    requires qs != []
    ensures BatchBytes(qs) != [] && Framed(qs[0].text) != []
  {
  }

  /** A batch grows by a kind byte, a text and its counted values. */
  lemma BatchBytesAppend(qs: seq<Query>, q: Query)
    requires qs != []
    ensures BatchBytes(qs + [q]) == BatchBytes(qs) + [0] + Framed(q.text) + CountedValues(q.values)
  {
    BatchBytesSnoc(qs, q);
  }

  /** Binding a value to the last query of a batch changes its count and appends the value. */
  lemma BindBytes(qs: seq<Query>, v: Value, head: seq<Byte>)
    requires |qs| > 1 && head + CountedValues(Last(qs).values) == BatchBytes(qs)
    ensures BatchBytes(Bind(qs, v)) == head + CountedValues(Last(qs).values + [v])
  {
    hide EncodeAll, Framed, CountedValues, BatchBytes;
    var front, q := qs[..|qs| - 1], Last(qs);
    var now := Bind(qs, v);
    assert now[..|qs| - 1] == front;
    BatchBytesAppend(front, q);
    BatchBytesAppend(front, Last(now));
    assert front + [q] == qs && front + [Last(now)] == now;
    Cancel(head, BatchBytes(front) + [0] + Framed(q.text), CountedValues(q.values));
  }

  /** A value appended while the count of the last query is pending. */
  lemma AppendPatched(query: seq<Byte>, a: nat, qs: seq<Query>, v: Value)
    requires |qs| > 1 && a + 2 <= |query| && query[a + 2..] == EncodeAll(Last(qs).values)
    requires Patch(query, Some(a), |Last(qs).values|) == BatchBytes(qs)
    ensures var q, vs := query + Encode(v), Last(qs).values + [v];
            && Patch(q, Some(a), |vs|) == BatchBytes(Bind(qs, v)) && q[a + 2..] == EncodeAll(vs)
            && q[a..a + 2] == query[a..a + 2]
  {
    hide Encode, EncodeAll, BatchBytes, Encode16;
    var vs := Last(qs).values;
    Assoc(query[..a], Encode16(|vs|), EncodeAll(vs));
    BindBytes(qs, v, query[..a]);
    EncodeAllSnoc(vs, v);
    var q := query + Encode(v);
    assert q[..a] == query[..a] && q[a + 2..] == query[a + 2..] + Encode(v);
    Assoc(query[..a], Encode16(|vs| + 1), EncodeAll(vs + [v]));
  }

  lemma Cancel(a: seq<Byte>, b: seq<Byte>, c: seq<Byte>)
    requires a + c == b + c
    ensures a == b
  {
    assert |a| == |b|;
    assert a == (a + c)[..|a|] && b == (b + c)[..|b|];
  }
}
