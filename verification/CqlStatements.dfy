/**
 A reader for the three forms of CQL statement that change data, written from the language alone: tokens are names,
 numbers and symbols with spaces between them where needed, keywords are read in either case, and `?` markers take the
 bound values in order.  It knows nothing of how `CqlRequest` spells its statements.
 */
module CqlStatements {
  import opened Bytes
  import opened Wrappers

  datatype Token = Word(text: seq<Byte>) | Symbol(code: int)

  /** A named column and the value for it. */
  datatype Cell<V> = Cell(name: seq<Byte>, value: V)

  /** What a statement does to the table: cells are set, a counter is changed, or a column or whole row is removed. */
  datatype Effect<V> =
    | SetCells(table: seq<Byte>, cells: seq<Cell<V>>, ttl: Option<int>)
    | AddTo(table: seq<Byte>, counter: seq<Byte>, delta: int, row: Cell<V>)
    | Remove(table: seq<Byte>, column: Option<seq<Byte>>, row: Cell<V>)

  // ---------------------------------------------------------------------------------------------
  // Tokens
  // ---------------------------------------------------------------------------------------------

  const SPACE: int := ' ' as int

  predicate IsSymbol(c: int) {
    || c == '(' as int || c == ')' as int || c == ',' as int || c == '=' as int
    || c == '?' as int || c == '+' as int || c == '-' as int
  }

  predicate Ends(c: int) {
    c == SPACE || IsSymbol(c)
  }

  function WordLength(b: seq<Byte>): (n: nat)
    ensures n <= |b| && (n > 0 <==> b != [] && !Ends(b[0]))
  {
    if b == [] || Ends(b[0]) then 0 else 1 + WordLength(b[1..])
  }

  function Tokens(b: seq<Byte>): seq<Token>
    decreases |b|
  {
    if b == [] then []
    else if b[0] == SPACE then Tokens(b[1..])
    else if IsSymbol(b[0]) then [Symbol(b[0])] + Tokens(b[1..])
    else [Word(b[..WordLength(b)])] + Tokens(b[WordLength(b)..])
  }

  /** A name or number: nothing in it ends a word. */
  predicate IsName(w: seq<Byte>) {
    w != [] && forall i :: 0 <= i < |w| ==> !Ends(w[i])
  }

  /** The token is the keyword `s`, given in capitals, in either case. */
  predicate Spells(t: Token, s: string) {
    t.Word? && |t.text| == |s| && forall i :: 0 <= i < |s| ==> t.text[i] == s[i] as int || t.text[i] == s[i] as int + 32
  }

  /** The number that decimal digits stand for. */
  function Number(w: seq<Byte>): Option<int> {
    if w == [] then None
    else
      var last := w[|w| - 1] - '0' as int;
      if !(0 <= last <= 9) then None
      else if |w| == 1 then Some(last)
      else
        var front :- Number(w[..|w| - 1]);
        Some(10 * front + last)
  }

  // ---------------------------------------------------------------------------------------------
  // Statements
  // ---------------------------------------------------------------------------------------------

  predicate Sym(ts: seq<Token>, i: nat, c: char) {
    i < |ts| && ts[i] == Symbol(c as int)
  }

  predicate Key(ts: seq<Token>, i: nat, s: string) {
    i < |ts| && Spells(ts[i], s)
  }

  predicate Named(ts: seq<Token>, i: nat) {
    i < |ts| && ts[i].Word?
  }

  datatype Listed = Listed(names: seq<seq<Byte>>, rest: seq<Token>)

  /** name { , name } ) */
  function ReadNames(ts: seq<Token>): Option<Listed> {
    if !Named(ts, 0) then None
    else if Sym(ts, 1, ')') then Some(Listed([ts[0].text], ts[2..]))
    else if Sym(ts, 1, ',') then
      var more :- ReadNames(ts[2..]);
      Some(Listed([ts[0].text] + more.names, more.rest))
    else None
  }

  datatype Counted = Counted(markers: nat, rest: seq<Token>)

  /** ? { , ? } ) */
  function ReadMarkers(ts: seq<Token>): Option<Counted> {
    if !Sym(ts, 0, '?') then None
    else if Sym(ts, 1, ')') then Some(Counted(1, ts[2..]))
    else if Sym(ts, 1, ',') then
      var more :- ReadMarkers(ts[2..]);
      Some(Counted(1 + more.markers, more.rest))
    else None
  }

  /** [ USING TTL number ] and nothing after it. */
  function ReadTtl(ts: seq<Token>): Option<Option<int>> {
    if ts == [] then Some(None)
    else if |ts| == 3 && Key(ts, 0, "USING") && Key(ts, 1, "TTL") && Named(ts, 2) then
      var n :- Number(ts[2].text);
      Some(Some(n))
    else None
  }

  function Pair<V>(names: seq<seq<Byte>>, values: seq<V>): seq<Cell<V>>
    requires |names| == |values|
  {
    if names == [] then [] else [Cell(names[0], values[0])] + Pair(names[1..], values[1..])
  }

  /** INSERT INTO table ( names ) VALUES ( markers ) [ USING TTL number ] */
  function ReadInsert<V>(ts: seq<Token>, values: seq<V>): Option<Effect<V>> {
    if !(Key(ts, 0, "INSERT") && Key(ts, 1, "INTO") && Named(ts, 2) && Sym(ts, 3, '(')) then None
    else
      var names :- ReadNames(ts[4..]);
      if !(Key(names.rest, 0, "VALUES") && Sym(names.rest, 1, '(')) then None
      else
        var markers :- ReadMarkers(names.rest[2..]);
        var ttl :- ReadTtl(markers.rest);
        if |names.names| == markers.markers == |values| then Some(SetCells(ts[2].text, Pair(names.names, values), ttl)) else None
  }

  /** WHERE name = ? and nothing after it. */
  function ReadWhere<V>(ts: seq<Token>, values: seq<V>): Option<Cell<V>> {
    if |ts| == 4 && Key(ts, 0, "WHERE") && Named(ts, 1) && Sym(ts, 2, '=') && Sym(ts, 3, '?') && |values| == 1 then
      Some(Cell(ts[1].text, values[0]))
    else None
  }

  /** UPDATE table SET name = name +- number WHERE name = ? with the same counter on both sides. */
  function ReadUpdate<V>(ts: seq<Token>, values: seq<V>): Option<Effect<V>> {
    if !(Key(ts, 0, "UPDATE") && Named(ts, 1) && Key(ts, 2, "SET") && Named(ts, 3) && Sym(ts, 4, '=') && Named(ts, 5)) then None
    else if ts[3] != ts[5] || !(Sym(ts, 6, '+') || Sym(ts, 6, '-')) || !Named(ts, 7) then None
    else
      var n :- Number(ts[7].text);
      var row :- ReadWhere(ts[8..], values);
      Some(AddTo(ts[1].text, ts[3].text, if Sym(ts, 6, '+') then n else -n, row))
  }

  /** DELETE [ column ] FROM table WHERE name = ? */
  function ReadDelete<V>(ts: seq<Token>, values: seq<V>): Option<Effect<V>> {
    if !Key(ts, 0, "DELETE") then None
    else
      var whole := Key(ts, 1, "FROM");
      var from := if whole then 1 else 2;
      if !(whole || Named(ts, 1)) || !Key(ts, from, "FROM") || !Named(ts, from + 1) then None
      else
        var row :- ReadWhere(ts[from + 2..], values);
        Some(Remove(ts[from + 1].text, if whole then None else Some(ts[1].text), row))
  }

  /** What a statement with values bound to its markers does. */
  function ReadEffect<V>(text: seq<Byte>, values: seq<V>): Option<Effect<V>> {
    var ts := Tokens(text);
    if Key(ts, 0, "INSERT") then ReadInsert(ts, values)
    else if Key(ts, 0, "UPDATE") then ReadUpdate(ts, values)
    else ReadDelete(ts, values)
  }
}
