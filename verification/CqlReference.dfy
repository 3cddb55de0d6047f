/**
 A reader for request bodies written from the CQL binary protocol v3 alone: QUERY (section 4.1.4) and BATCH
 (section 4.1.7).  It knows nothing of how `CqlRequest` builds its bytes.  The optional parts that this
 client never sends (page size, paging state, named values) are rejected.
 */
module CqlReference {
  import opened Bytes
  import opened Wrappers

  /** A [bytes] argument: null, or its content. */
  type Bound = Option<seq<Byte>>

  datatype Statement = Statement(text: seq<Byte>, values: seq<Bound>)

  datatype Options = Options(consistency: int, serial: Option<int>, timestamp: Option<int>)

  datatype Message =
    | QueryMessage(statement: Statement, options: Options)
    | BatchMessage(kind: Byte, statements: seq<Statement>, options: Options)

  /** What was read and the bytes that follow it. */
  datatype Reading<T> = Reading(item: T, rest: seq<Byte>)

  function ReadByte(b: seq<Byte>): Option<Reading<Byte>> {
    if |b| < 1 then None else Some(Reading(b[0], b[1..]))
  }

  function ReadShort(b: seq<Byte>): Option<Reading<int>> {
    if |b| < 2 then None else Some(Reading(Unsigned16(b), b[2..]))
  }

  /** [long string]: an [int] n, then n bytes. */
  function ReadLongString(b: seq<Byte>): Option<Reading<seq<Byte>>> {
    if |b| < 4 then None
    else
      var n, rest := Int32(Unsigned32(b)), b[4..];
      if 0 <= n <= |rest| then Some(Reading(rest[..n], rest[n..])) else None
  }

  /** [bytes]: an [int] n, then n bytes if n >= 0; otherwise null. */
  function ReadBytes(b: seq<Byte>): Option<Reading<Bound>> {
    if |b| < 4 then None
    else
      var n, rest := Int32(Unsigned32(b)), b[4..];
      if n < 0 then Some(Reading(None, rest))
      else if n <= |rest| then Some(Reading(Some(rest[..n]), rest[n..]))
      else None
  }

  function ReadValues(n: nat, b: seq<Byte>): Option<Reading<seq<Bound>>> {
    if n == 0 then Some(Reading([], b))
    else
      var first :- ReadBytes(b);
      var others :- ReadValues(n - 1, first.rest);
      Some(Reading([first.item] + others.item, others.rest))
  }

  /** <n><value_1>...<value_n> with n a [short]. */
  function ReadCountedValues(b: seq<Byte>): Option<Reading<seq<Bound>>> {
    var n :- ReadShort(b);
    ReadValues(n.item, n.rest)
  }

  function HasFlag(flags: Byte, mask: nat): bool
    requires mask > 0
  {
    (flags / mask) % 2 == 1
  }

  predicate Supported(flags: Byte) {
    !HasFlag(flags, 0x04) && !HasFlag(flags, 0x08) && !HasFlag(flags, 0x40)
  }

  function ReadOptions(consistency: int, flags: Byte, b: seq<Byte>): Option<Options> {
    var serial :- ReadOptionalShort(HasFlag(flags, 0x10), b);
    var stamp :- ReadOptionalLong(HasFlag(flags, 0x20), serial.rest);
    if Supported(flags) && stamp.rest == [] then Some(Options(consistency, serial.item, stamp.item)) else None
  }

  function ReadOptionalShort(present: bool, b: seq<Byte>): Option<Reading<Option<int>>> {
    if !present then Some(Reading(None, b))
    else if |b| < 2 then None
    else Some(Reading(Some(Unsigned16(b)), b[2..]))
  }

  function ReadOptionalLong(present: bool, b: seq<Byte>): Option<Reading<Option<int>>> {
    if !present then Some(Reading(None, b))
    else if |b| < 8 then None
    else Some(Reading(Some(Int64(Unsigned64(b))), b[8..]))
  }

  /** <query><consistency><flags>[<n><value_1>...<value_n>][<serial_consistency>][<timestamp>] */
  function ReadQuery(b: seq<Byte>): Option<Message> {
    var text :- ReadLongString(b);
    var consistency :- ReadShort(text.rest);
    var flags :- ReadByte(consistency.rest);
    var values :- if HasFlag(flags.item, 0x01) then ReadCountedValues(flags.rest) else Some(Reading([], flags.rest));
    var options :- ReadOptions(consistency.item, flags.item, values.rest);
    Some(QueryMessage(Statement(text.item, values.item), options))
  }

  /** <kind><string><n><value_1>...<value_n>; kind 0 is a query string, the only kind this client sends. */
  function ReadStatement(b: seq<Byte>): Option<Reading<Statement>> {
    var kind :- ReadByte(b);
    if kind.item != 0 then None
    else
      var text :- ReadLongString(kind.rest);
      var values :- ReadCountedValues(text.rest);
      Some(Reading(Statement(text.item, values.item), values.rest))
  }

  function ReadStatements(n: nat, b: seq<Byte>): Option<Reading<seq<Statement>>> {
    if n == 0 then Some(Reading([], b))
    else
      var first :- ReadStatement(b);
      var others :- ReadStatements(n - 1, first.rest);
      Some(Reading([first.item] + others.item, others.rest))
  }

  /** <type><n><query_1>...<query_n><consistency><flags>[<serial_consistency>][<timestamp>] */
  function ReadBatch(b: seq<Byte>): Option<Message> {
    var kind :- ReadByte(b);
    var n :- ReadShort(kind.rest);
    var statements :- ReadStatements(n.item, n.rest);
    var consistency :- ReadShort(statements.rest);
    var flags :- ReadByte(consistency.rest);
    var options :- ReadOptions(consistency.item, flags.item, flags.rest);
    Some(BatchMessage(kind.item, statements.item, options))
  }
}
