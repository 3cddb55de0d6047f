/**
 Every sequence of calls on one `CassandraRequest`: queries, values bound to them, settings and encodings, in any
 order.  What the calls ask for is written down from the calls alone; the request does it, or a `CHECK` fires, and
 the server reads from every encoding what had been asked for up to then.
 */
module RequestRuns {
  import opened Bytes
  import opened CqlReference
  import opened CqlRequest
  import opened RequestMeaning
  import opened ValueCodec
  import opened Wrappers

  datatype Call =
    | InsertCall(keyName: seq<Byte>, key: Value, column: seq<Byte>, value: Value, table: seq<Byte>, ttl: int)
    | AddCall(keyName: seq<Byte>, key: Value, counter: seq<Byte>, step: int, table: seq<Byte>)
    | DeleteCall(keyName: seq<Byte>, key: Value, column: seq<Byte>, table: seq<Byte>)
    | ExecuteCall(text: seq<Byte>)
    | AppendCall(value: Value)
    | ConsistencyCall(level: int)
    | SerialCall(level: int)
    | TimestampCall(stamp: int)
    | EncodeCall

  predicate IsQuery(c: Call) {
    c.InsertCall? || c.AddCall? || c.DeleteCall? || c.ExecuteCall?
  }

  /** The query that a call adds. */
  function QueryOf(c: Call): Query
    requires IsQuery(c)
  {
    match c
    case InsertCall(keyName, key, column, value, table, ttl) => Query(Flat(InsertPieces(table, keyName, column, ttl)), [key, value])
    case AddCall(keyName, key, counter, step, table) => Query(Flat(AddPieces(table, keyName, counter, step)), [key])
    case DeleteCall(keyName, key, column, table) => Query(Flat(DeletePieces(table, keyName, column)), [key])
    case ExecuteCall(text) => Query(text, [])
  }

  /**
   What has been asked for: the queries with their values, the values bound before there was a query, the kind of
   batch and the settings.  `open` says that the last query of a batch can still be given values, `lost` that a value
   was bound to a query of a batch that was not open.
   */
  datatype Asked = Asked(queries: seq<Query>, early: seq<Value>, open: bool, lost: bool, kind: Byte, settings: Settings)

  const NOTHING := Asked([], [], false, false, BATCH_LOGGED, Settings(CONSISTENCY_LOCAL_ONE, None, None))

  function AskQuery(a: Asked, c: Call): Asked
    requires IsQuery(c)
  {
    var q := QueryOf(c);
    a.(queries := a.queries + [q.(values := a.early + q.values)],
       early := [],
       open := c.ExecuteCall? && a.queries != [],
       kind := if c.AddCall? && a.queries != [] then BATCH_COUNTER else a.kind)
  }

  function AskValue(a: Asked, v: Value): Asked {
    if a.queries == [] then a.(early := a.early + [v])
    else a.(queries := Bind(a.queries, v), lost := a.lost || (|a.queries| > 1 && !a.open))
  }

  function Ask(a: Asked, c: Call): Asked {
    if IsQuery(c) then AskQuery(a, c)
    else match c
      case AppendCall(v) => AskValue(a, v)
      case ConsistencyCall(level) => a.(settings := a.settings.(consistency := level))
      case SerialCall(level) => a.(settings := a.settings.(serial := Some(level)))
      case TimestampCall(stamp) => a.(settings := a.settings.(timestamp := Some(stamp)))
      case EncodeCall => a.(open := false)
  }

  function After(calls: seq<Call>): Asked {
    if calls == [] then NOTHING else Ask(After(calls[..|calls| - 1]), calls[|calls| - 1])
  }

  /** The protocol's 16-bit counts can hold it. */
  predicate Countable(a: Asked) {
    |a.queries| < TWO_16 && |a.early| < TWO_16 && forall i :: 0 <= i < |a.queries| ==> |a.queries[i].values| < TWO_16
  }

  /** The bytes that a call sends. */
  function Sends(a: Asked, c: Call): seq<Byte> {
    if c.EncodeCall? then Body(a.kind, a.queries, a.settings) else []
  }

  function Sent(calls: seq<Call>): seq<Byte> {
    if calls == [] then [] else Sent(calls[..|calls| - 1]) + Sends(After(calls[..|calls| - 1]), calls[|calls| - 1])
  }

  /** The calls that settle the number of values of the last query. */
  predicate Settles(c: Call) {
    IsQuery(c) || c.EncodeCall?
  }

  /** No call settles a number of values after a value was lost. */
  predicate Clean(calls: seq<Call>) {
    calls == [] || (Clean(calls[..|calls| - 1]) && !(After(calls[..|calls| - 1]).lost && Settles(calls[|calls| - 1])))
  }

  // ---------------------------------------------------------------------------------------------
  // The request does what the calls ask for
  // ---------------------------------------------------------------------------------------------

  ghost predicate Matches(r: Request, a: Asked)
    reads r
  {
    && r.queries == a.queries && r.early == a.early && r.batchType == a.kind && r.settings == a.settings
    && (if a.lost then r.Stuck() else r.Valid())
    && (!a.lost ==> (r.area.Some? <==> a.open))
  }

  method PerformQuery(r: Request, c: Call, garbage: seq<Byte>, ghost a: Asked) returns (ok: bool)
    requires IsQuery(c) && |garbage| == 4 && Matches(r, a) && Countable(Ask(a, c))
    modifies r
    ensures ok <==> !a.lost
    ensures ok ==> Matches(r, Ask(a, c))
  {
    hide Request.Valid, Request.Stuck, InsertPieces, AddPieces, DeletePieces, Flat;
    r.Phases();
    assert a.early + [] == a.early;
    match c
    case InsertCall(keyName, key, column, value, table, ttl) => ok := r.Insert(keyName, key, column, value, table, ttl, garbage);
    case AddCall(keyName, key, counter, step, table) => ok := r.Add(keyName, key, counter, step, table, garbage);
    case DeleteCall(keyName, key, column, table) => ok := r.Delete(keyName, key, column, table, garbage);
    case ExecuteCall(text) => ok := r.ExecuteCql3Query(text);
  }

  method PerformAppend(r: Request, v: Value, ghost a: Asked)
    requires Matches(r, a) && Countable(AskValue(a, v))
    modifies r
    ensures Matches(r, AskValue(a, v))
  {
    hide Request.Valid, Request.Stuck;
    r.Phases();
    r.AppendQueryParameterValue(v);
  }

  /** One call; `ok` says that no `CHECK` fired. */
  method PerformOne(r: Request, c: Call, garbage: seq<Byte>, buf: IOBuf, ghost a: Asked) returns (ok: bool)
    requires |garbage| == 4 && Matches(r, a) && Countable(Ask(a, c))
    modifies r, buf
    ensures ok <==> !(a.lost && Settles(c))
    ensures ok ==> Matches(r, Ask(a, c)) && buf.bytes == old(buf.bytes) + Sends(a, c)
  {
    hide Request.Valid, Request.Stuck, Body;
    ok := true;
    r.Phases();
    match c
    case AppendCall(v) => PerformAppend(r, v, a);
    case ConsistencyCall(level) => r.SetConsistency(level);
    case SerialCall(level) => r.SetSerialConsistency(level);
    case TimestampCall(stamp) => r.SetTimestamp(stamp);
    case EncodeCall => ok := r.EncodeTo(buf);
    case _ => ok := PerformQuery(r, c, garbage, a);
  }

  lemma {:induction false} CountableBefore(calls: seq<Call>, i: nat)
    requires i <= |calls| && Countable(After(calls))
    ensures Countable(After(calls[..i]))
    decreases |calls|
  {
    if i < |calls| {
      CountableStep(After(calls[..|calls| - 1]), calls[|calls| - 1]);
      CountableBefore(calls[..|calls| - 1], i);
      assert calls[..|calls| - 1][..i] == calls[..i];
    } else {
      assert calls[..i] == calls;
    }
  }

  /** Nothing that was asked for is taken back. */
  lemma CountableStep(a: Asked, c: Call)
    requires Countable(Ask(a, c))
    ensures Countable(a)
  {
    hide QueryOf;
    var b := Ask(a, c);
    forall i | 0 <= i < |a.queries|
      ensures |a.queries[i].values| <= |b.queries[i].values|
    {
    }
    if IsQuery(c) {
      assert b.queries[|a.queries|].values == a.early + QueryOf(c).values;
    }
  }

  /**
   Performs any calls, in any order, on a new request.  A `CHECK` fires exactly if a value was bound to a query of a
   batch that was not open and a later call settles its number of values; otherwise the request holds exactly what
   was asked for and every encoding has sent exactly that.
   */
  method Perform(calls: seq<Call>, garbage: seq<seq<Byte>>, buf: IOBuf) returns (r: Request, ok: bool)
    requires Countable(After(calls)) && |garbage| == |calls| && forall i :: 0 <= i < |garbage| ==> |garbage[i]| == 4
    modifies buf
    ensures ok <==> Clean(calls)
    ensures ok ==> Matches(r, After(calls)) && buf.bytes == old(buf.bytes) + Sent(calls)
  {
    hide Request.Valid, Request.Stuck, Ask, Sends, Settles, Countable;
    r := new Request();
    ok := true;
    assert calls[..0] == [];
    var i := 0;
    while i < |calls|
      invariant 0 <= i <= |calls| && fresh(r)
      invariant Clean(calls[..i]) && Matches(r, After(calls[..i])) && buf.bytes == old(buf.bytes) + Sent(calls[..i])
    {
      assert calls[..i + 1][..i] == calls[..i];
      CountableBefore(calls, i + 1);
      ok := PerformOne(r, calls[i], garbage[i], buf, After(calls[..i]));
      if !ok {
        NotCleanLater(calls, i + 1);
        return;
      }
      i := i + 1;
    }
    assert calls[..i] == calls;
  }

  lemma {:induction false} NotCleanLater(calls: seq<Call>, i: nat)
    requires i <= |calls| && !Clean(calls[..i])
    ensures !Clean(calls)
    decreases |calls|
  {
    if i < |calls| {
      assert calls[..|calls| - 1][..i] == calls[..i];
      NotCleanLater(calls[..|calls| - 1], i);
    } else {
      assert calls[..i] == calls;
    }
  }

  // ---------------------------------------------------------------------------------------------
  // When the encoding succeeds, read off the calls
  // ---------------------------------------------------------------------------------------------

  function QueryCount(calls: seq<Call>): nat {
    if calls == [] then 0 else QueryCount(calls[..|calls| - 1]) + if IsQuery(calls[|calls| - 1]) then 1 else 0
  }

  /** The last call that settled a number of values is an `ExecuteCql3Query`. */
  predicate ExecuteIsLast(calls: seq<Call>) {
    && calls != []
    && var c := calls[|calls| - 1]; if Settles(c) then c.ExecuteCall? else ExecuteIsLast(calls[..|calls| - 1])
  }

  /** From the second query on, values follow an `ExecuteCql3Query` with no other query and no encoding in between. */
  predicate Orderly(calls: seq<Call>) {
    forall i :: 0 <= i < |calls| && calls[i].AppendCall? ==> QueryCount(calls[..i]) <= 1 || ExecuteIsLast(calls[..i])
  }

  lemma {:induction false} AskedSoFar(calls: seq<Call>)
    ensures |After(calls).queries| == QueryCount(calls)
    ensures QueryCount(calls) > 1 ==> (After(calls).open <==> ExecuteIsLast(calls))
    ensures QueryCount(calls) <= 1 ==> !After(calls).open
  {
    hide QueryOf;
    if calls != [] {
      AskedSoFar(calls[..|calls| - 1]);
    }
  }

  lemma OrderlySnoc(calls: seq<Call>, c: Call)
    ensures Orderly(calls + [c]) <==> Orderly(calls) && (c.AppendCall? ==> QueryCount(calls) <= 1 || ExecuteIsLast(calls))
  {
    hide QueryCount, ExecuteIsLast;
    var all := calls + [c];
    assert all[..|calls|] == calls;
    assert forall i :: 0 <= i < |calls| ==> all[i] == calls[i] && all[..i] == calls[..i];
    if Orderly(all) {
      forall i | 0 <= i < |calls| && calls[i].AppendCall?
        ensures QueryCount(calls[..i]) <= 1 || ExecuteIsLast(calls[..i])
      {
        assert all[i].AppendCall?;
      }
      assert all[|calls|] == c;
    }
  }

  /** A value is lost exactly if the calls are not orderly. */
  lemma {:induction false} LostExactly(calls: seq<Call>)
    ensures After(calls).lost <==> !Orderly(calls)
    ensures Orderly(calls) ==> Clean(calls)
  {
    hide QueryOf, QueryCount, ExecuteIsLast, Orderly;
    if calls == [] {
      NothingIsOrderly();
    } else {
      var front, c := calls[..|calls| - 1], calls[|calls| - 1];
      assert calls == front + [c];
      LostExactly(front);
      AskedSoFar(front);
      OrderlySnoc(front, c);
    }
  }

  lemma NothingIsOrderly()
    ensures Orderly([])
  {
  }

  lemma Snoc(calls: seq<Call>, c: Call)
    ensures After(calls + [c]) == Ask(After(calls), c)
    ensures Sent(calls + [c]) == Sent(calls) + Sends(After(calls), c)
    ensures Clean(calls + [c]) <==> Clean(calls) && !(After(calls).lost && Settles(c))
  {
    assert (calls + [c])[..|calls|] == calls;
  }

  /** After any calls, encoding passes the `CHECK` if and only if they were orderly. */
  lemma EncodesExactly(calls: seq<Call>)
    ensures Clean(calls + [EncodeCall]) <==> Orderly(calls)
  {
    hide Orderly, Clean, After, Sends;
    LostExactly(calls);
    Snoc(calls, EncodeCall);
  }

  lemma CountSnoc(calls: seq<Call>, c: Call)
    ensures QueryCount(calls + [c]) == QueryCount(calls) + if IsQuery(c) then 1 else 0
    ensures Settles(c) ==> (ExecuteIsLast(calls + [c]) <==> c.ExecuteCall?)
  {
    assert (calls + [c])[..|calls|] == calls;
  }

  /** A value bound after two queries makes the next encoding abort if the second one is a convenience query ... */
  lemma ValueAfterConvenienceQuery(first: Call, second: Call, v: Value)
    requires IsQuery(first) && IsQuery(second) && !second.ExecuteCall?
    ensures !Clean([first, second, AppendCall(v), EncodeCall])
  {
    hide Clean, ExecuteIsLast;
    var two, calls := [first, second], [first, second, AppendCall(v)];
    CountSnoc([], first);
    CountSnoc([first], second);
    assert [] + [first] == [first] && [first] + [second] == two && calls[..2] == two && calls[2].AppendCall?;
    EncodesExactly(calls);
    assert calls + [EncodeCall] == [first, second, AppendCall(v), EncodeCall];
  }

  /** ... or if the batch has been encoded before. */
  lemma ValueAfterEncoding(first: Call, second: Call, v: Value)
    requires IsQuery(first) && IsQuery(second)
    ensures !Clean([first, second, EncodeCall, AppendCall(v), EncodeCall])
  {
    hide Clean, ExecuteIsLast;
    var three, calls := [first, second, EncodeCall], [first, second, EncodeCall, AppendCall(v)];
    CountSnoc([], first);
    CountSnoc([first], second);
    CountSnoc([first, second], EncodeCall);
    assert [] + [first] == [first] && [first] + [second] == [first, second] && [first, second] + [EncodeCall] == three;
    assert calls[..3] == three && calls[3].AppendCall?;
    EncodesExactly(calls);
    assert calls + [EncodeCall] == [first, second, EncodeCall, AppendCall(v), EncodeCall];
  }

  // ---------------------------------------------------------------------------------------------
  // What the server reads
  // ---------------------------------------------------------------------------------------------

  /** What a server makes of a body: one query is a QUERY, more are a BATCH. */
  function ReadBody(single: bool, b: seq<Byte>): Option<Message> {
    if single then ReadQuery(b) else ReadBatch(b)
  }

  function MessageFor(kind: Byte, qs: seq<Query>, s: Settings): Message
    requires qs != []
  {
    if |qs| == 1 then QueryMessage(Meaning(qs[0]), OptionsOf(s)) else BatchMessage(kind, Meanings(qs), OptionsOf(s))
  }

  predicate AllFit(qs: seq<Query>, s: Settings) {
    |qs| < TWO_16 && SettingsFit(s) && forall i :: 0 <= i < |qs| ==> Fits(qs[i])
  }

  lemma BodyReads(kind: Byte, qs: seq<Query>, s: Settings)
    requires qs != [] && AllFit(qs, s)
    ensures ReadBody(|qs| == 1, Body(kind, qs, s)) == Some(MessageFor(kind, qs, s))
  {
    hide ReadQuery, ReadBatch, QueryBody, BatchBody, Fits;
    if |qs| == 1 {
      QueryReads(qs[0], s);
    } else {
      BatchReads(kind, qs, s);
    }
  }

  /** Encoding changes nothing that is sent: a second encoding sends the same bytes again. */
  lemma EncodedTwice(calls: seq<Call>)
    ensures var a := After(calls);
            var b := Body(a.kind, a.queries, a.settings);
            Sent(calls + [EncodeCall]) == Sent(calls) + b && Sent(calls + [EncodeCall, EncodeCall]) == Sent(calls) + b + b
    ensures Clean(calls + [EncodeCall, EncodeCall]) <==> Orderly(calls)
  {
    hide After, Sent, Clean, Body, Orderly;
    assert calls + [EncodeCall, EncodeCall] == (calls + [EncodeCall]) + [EncodeCall];
    Snoc(calls, EncodeCall);
    Snoc(calls + [EncodeCall], EncodeCall);
    EncodesExactly(calls);
    LostExactly(calls);
  }

  /** After any orderly calls with a query among them, the server reads from the encoding exactly what was asked for. */
  lemma RunReads(calls: seq<Call>)
    requires Orderly(calls) && After(calls).queries != [] && AllFit(After(calls).queries, After(calls).settings)
    ensures var a := After(calls);
            var b := Body(a.kind, a.queries, a.settings);
            && Clean(calls + [EncodeCall, EncodeCall]) && Sent(calls + [EncodeCall, EncodeCall]) == Sent(calls) + b + b
            && ReadBody(|a.queries| == 1, b) == Some(MessageFor(a.kind, a.queries, a.settings))
  {
    hide After, Sent, Clean, Body, Orderly, AllFit, ReadBody, MessageFor;
    EncodedTwice(calls);
    BodyReads(After(calls).kind, After(calls).queries, After(calls).settings);
  }

  // ---------------------------------------------------------------------------------------------
  // Queries, each with the values bound right after it
  // ---------------------------------------------------------------------------------------------

  /** One query and, if its text was given by `ExecuteCql3Query`, the values appended to it. */
  datatype Item = Item(call: Call, values: seq<Value>)

  predicate ItemOk(item: Item) {
    IsQuery(item.call) && (item.values != [] ==> item.call.ExecuteCall?)
  }

  function Appends(vs: seq<Value>): seq<Call> {
    seq(|vs|, i requires 0 <= i < |vs| => AppendCall(vs[i]))
  }

  /** The calls that an item stands for. */
  function Spelled(items: seq<Item>): seq<Call> {
    if items == [] then []
    else Spelled(items[..|items| - 1]) + [items[|items| - 1].call] + Appends(items[|items| - 1].values)
  }

  function WantedOf(item: Item): Query
    requires ItemOk(item)
  {
    var q := QueryOf(item.call); q.(values := q.values + item.values)
  }

  function Wanted(items: seq<Item>): seq<Query>
    requires forall i :: 0 <= i < |items| ==> ItemOk(items[i])
  {
    seq(|items|, i requires 0 <= i < |items| => WantedOf(items[i]))
  }

  /** A batch with an `Add` after its first query is a counter batch. */
  function KindOf(items: seq<Item>): Byte {
    if exists i :: 1 <= i < |items| && items[i].call.AddCall? then BATCH_COUNTER else BATCH_LOGGED
  }

  lemma {:induction false} AppendsAsked(calls: seq<Call>, vs: seq<Value>)
    requires var a := After(calls); a.queries != [] && !a.lost && (vs != [] && |a.queries| > 1 ==> a.open)
    ensures var a, b := After(calls), After(calls + Appends(vs));
            b == a.(queries := a.queries[|a.queries| - 1 := Last(a.queries).(values := Last(a.queries).values + vs)])
    ensures Sent(calls + Appends(vs)) == Sent(calls)
    decreases |vs|
  {
    hide After, Sent, Clean;
    var a := After(calls);
    if vs == [] {
      assert calls + Appends(vs) == calls && Last(a.queries).values + vs == Last(a.queries).values;
    } else {
      var k := |vs| - 1;
      AppendsAsked(calls, vs[..k]);
      assert calls + Appends(vs) == (calls + Appends(vs[..k])) + [AppendCall(vs[k])];
      Snoc(calls + Appends(vs[..k]), AppendCall(vs[k]));
      assert (Last(a.queries).values + vs[..k]) + [vs[k]] == Last(a.queries).values + vs;
    }
  }

  /** The calls of one item add its query. */
  lemma ItemAsked(calls: seq<Call>, item: Item)
    requires ItemOk(item) && After(calls).early == [] && !After(calls).lost
    ensures var a, b := After(calls), After(calls + [item.call] + Appends(item.values));
            && b.queries == a.queries + [WantedOf(item)] && b.early == [] && !b.lost && b.settings == a.settings
            && b.kind == (if item.call.AddCall? && a.queries != [] then BATCH_COUNTER else a.kind)
    ensures Sent(calls + [item.call] + Appends(item.values)) == Sent(calls)
  {
    hide After, Sent, Clean, QueryOf;
    Snoc(calls, item.call);
    AppendsAsked(calls + [item.call], item.values);
    assert [] + QueryOf(item.call).values == QueryOf(item.call).values;
  }

  /** The calls of any items ask for exactly the queries of the items. */
  lemma {:induction false} ItemsAsked(items: seq<Item>)
    requires forall i :: 0 <= i < |items| ==> ItemOk(items[i])
    ensures var a := After(Spelled(items));
            a.queries == Wanted(items) && a.early == [] && !a.lost && a.kind == KindOf(items) && a.settings == NOTHING.settings
    ensures Sent(Spelled(items)) == []
  {
    hide After, Sent, WantedOf, KindOf;
    if items == [] {
      NothingAsked();
    } else {
      var k := |items| - 1;
      var front, item := items[..k], items[k];
      ItemsAsked(front);
      ItemAsked(Spelled(front), item);
      KindSnoc(front, item);
      assert items == front + [item];
      assert Wanted(items) == Wanted(front) + [WantedOf(item)];
    }
  }

  lemma NothingAsked()
    ensures After([]) == NOTHING && Sent([]) == [] && KindOf([]) == NOTHING.kind
  {
  }

  lemma KindSnoc(items: seq<Item>, item: Item)
    ensures KindOf(items + [item]) == if items != [] && item.call.AddCall? then BATCH_COUNTER else KindOf(items)
  {
    var all := items + [item];
    assert forall i :: 1 <= i < |items| ==> all[i] == items[i];
    if items != [] && item.call.AddCall? {
      assert all[|items|].call.AddCall?;
    } else if exists i :: 1 <= i < |items| && items[i].call.AddCall? {
      var i :| 1 <= i < |items| && items[i].call.AddCall?;
      assert all[i].call.AddCall?;
    }
  }

  /**
   Any queries, made by `Insert`, `Add`, `Delete` and `ExecuteCql3Query` with values appended to the latter: nothing
   aborts, and the request is encoded twice to the same bytes, from which the server reads exactly those queries.
   */
  method SendTwice(items: seq<Item>, garbage: seq<seq<Byte>>, buf: IOBuf) returns (ok: bool, ghost body: seq<Byte>)
    requires items != [] && (forall i :: 0 <= i < |items| ==> ItemOk(items[i])) && AllFit(Wanted(items), NOTHING.settings)
    requires |garbage| == |Spelled(items)| + 2 && forall i :: 0 <= i < |garbage| ==> |garbage[i]| == 4
    modifies buf
    ensures ok && buf.bytes == old(buf.bytes) + body + body
    ensures ReadBody(|items| == 1, body) == Some(MessageFor(KindOf(items), Wanted(items), NOTHING.settings))
  {
    hide After, Sent, Clean, Orderly, Spelled, Wanted, KindOf, ReadBody, MessageFor, Body, ItemOk;
    var calls := Spelled(items);
    ItemsAsked(items);
    SameLength(items);
    LostExactly(calls);
    RunReads(calls);
    body := Body(KindOf(items), Wanted(items), NOTHING.settings);
    TwoEncodings(calls);
    var r;
    r, ok := Perform(calls + [EncodeCall, EncodeCall], garbage, buf);
  }

  lemma SameLength(items: seq<Item>)
    requires forall i :: 0 <= i < |items| ==> ItemOk(items[i])
    ensures |Wanted(items)| == |items|
  {
  }

  lemma TwoEncodings(calls: seq<Call>)
    requires AllFit(After(calls).queries, After(calls).settings) && After(calls).early == []
    ensures Countable(After(calls + [EncodeCall, EncodeCall]))
  {
    hide After, Sent, Clean, Body, Content, SettingsFit;
    assert calls + [EncodeCall, EncodeCall] == (calls + [EncodeCall]) + [EncodeCall];
    Snoc(calls, EncodeCall);
    Snoc(calls + [EncodeCall], EncodeCall);
  }
}
