/**
 The text of every query that `Insert`, `Add` and `Delete` make, read as a CQL statement, does what the call asks for:
 the table, the columns, the signed number and the values are those of the call.
 */
module StatementMeaning {
  import opened Bytes
  import opened CqlReference
  import opened CqlRequest
  import opened CqlStatements
  import opened RequestMeaning
  import opened RequestRuns
  import opened ValueCodec
  import opened Wrappers

  // ---------------------------------------------------------------------------------------------
  // Tokens of texts put together
  // ---------------------------------------------------------------------------------------------

  /** No word goes across the border of `a` and `b`. */
  predicate Apart(a: seq<Byte>, b: seq<Byte>) {
    a == [] || b == [] || Ends(a[|a| - 1]) || Ends(b[0])
  }

  lemma {:induction false} WordLengthJoin(a: seq<Byte>, b: seq<Byte>)
    requires Apart(a, b) && a != []
    ensures WordLength(a + b) == WordLength(a)
    decreases |a|
  {
    if !Ends(a[0]) {
      assert (a + b)[1..] == a[1..] + b;
      if |a| == 1 {
        assert a[1..] + b == b;
      } else {
        WordLengthJoin(a[1..], b);
      }
    }
  }

  /** The first token, if the text does not begin with a space, and how far it goes. */
  function First(b: seq<Byte>): seq<Token>
    requires b != []
  {
    if b[0] == SPACE then [] else if IsSymbol(b[0]) then [Symbol(b[0])] else [Word(b[..WordLength(b)])]
  }

  function Step(b: seq<Byte>): (n: nat)
    requires b != []
    ensures 0 < n <= |b|
  {
    if Ends(b[0]) then 1 else WordLength(b)
  }

  lemma TokensStep(b: seq<Byte>)
    requires b != []
    ensures Tokens(b) == First(b) + Tokens(b[Step(b)..])
  {
  }

  lemma FirstJoin(a: seq<Byte>, b: seq<Byte>)
    requires Apart(a, b) && a != []
    ensures First(a + b) == First(a) && Step(a + b) == Step(a)
  {
    WordLengthJoin(a, b);
    assert (a + b)[..WordLength(a)] == a[..WordLength(a)];
  }

  lemma {:induction false} TokensJoin(a: seq<Byte>, b: seq<Byte>)
    requires Apart(a, b)
    ensures Tokens(a + b) == Tokens(a) + Tokens(b)
    decreases |a|
  {
    hide Tokens, First, Step, Ends;
    if a == [] {
      NoTokens();
      assert a + b == b;
    } else {
      var n := Step(a);
      TokensStep(a);
      TokensStep(a + b);
      FirstJoin(a, b);
      assert (a + b)[n..] == a[n..] + b;
      TokensJoin(a[n..], b);
    }
  }

  lemma {:induction false} WholeWord(w: seq<Byte>)
    requires forall i :: 0 <= i < |w| ==> !Ends(w[i])
    ensures WordLength(w) == |w|
  {
    if w != [] {
      WholeWord(w[1..]);
    }
  }

  lemma NameTokens(w: seq<Byte>)
    requires IsName(w)
    ensures Tokens(w) == [Word(w)]
  {
    WholeWord(w);
    assert Tokens(w[|w|..]) == [] && w[..|w|] == w;
  }

  lemma {:induction false} FlatJoin(a: seq<seq<Byte>>, b: seq<seq<Byte>>)
    ensures Flat(a + b) == Flat(a) + Flat(b)
    decreases |b|
  {
    hide Flat;
    if b == [] {
      NoPieces();
      assert a + b == a;
    } else {
      var k := |b| - 1;
      FlatJoin(a, b[..k]);
      FlatSnoc(a + b[..k], b[k]);
      FlatSnoc(b[..k], b[k]);
      assert a + b == (a + b[..k]) + [b[k]] && b == b[..k] + [b[k]];
      assert Flat(a) + (Flat(b[..k]) + b[k]) == (Flat(a) + Flat(b[..k])) + b[k];
    }
  }

  lemma NoPieces()
    ensures Flat([]) == []
  {
  }

  lemma FlatSnoc(front: seq<seq<Byte>>, p: seq<Byte>)
    ensures Flat(front + [p]) == Flat(front) + p
  {
    assert (front + [p])[..|front|] == front;
  }

  lemma FlatOne(x: seq<Byte>)
    ensures Flat([x]) == x
  {
    assert [x][..0] == [];
  }

  lemma FlatTwo(x: seq<Byte>, y: seq<Byte>)
    ensures Flat([x, y]) == x + y
  {
    FlatOne(x);
    assert [x, y][..1] == [x];
  }

  lemma FlatThree(x: seq<Byte>, y: seq<Byte>, z: seq<Byte>)
    ensures Flat([x, y, z]) == x + y + z
  {
    FlatTwo(x, y);
    assert [x, y, z][..2] == [x, y];
  }

  // ---------------------------------------------------------------------------------------------
  // Tokens of the fixed pieces
  // ---------------------------------------------------------------------------------------------

  predicate Letters(s: string) {
    s != [] && forall i :: 0 <= i < |s| ==> 'A' <= s[i] <= 'z'
  }

  lemma KeywordTokens(s: string)
    requires Letters(s)
    ensures Tokens(Ascii(s)) == [Word(Ascii(s))] && Apart(Ascii(s), [SPACE])
    ensures Tokens(Ascii(s) + [SPACE]) == [Word(Ascii(s))]
    ensures Tokens([SPACE] + Ascii(s) + [SPACE]) == [Word(Ascii(s))]
  {
    hide Tokens;
    NameTokens(Ascii(s));
    OneSpace();
    TokensJoin(Ascii(s), [SPACE]);
    assert [SPACE] + Ascii(s) + [SPACE] == [SPACE] + (Ascii(s) + [SPACE]);
    TokensJoin([SPACE], Ascii(s) + [SPACE]);
  }

  lemma OneSpace()
    ensures Tokens([SPACE]) == []
  {
    assert [SPACE][1..] == [];
  }

  lemma AsciiJoin(s: string, t: string)
    ensures Ascii(s + t) == Ascii(s) + Ascii(t)
  {
  }

  lemma Blank()
    ensures Ascii(" ") == [SPACE]
  {
  }

  /** `UPDATE `, `Delete `. */
  lemma KeywordAndSpace(s: string)
    requires Letters(s)
    ensures Tokens(Ascii(s + " ")) == [Word(Ascii(s))] && Ascii(s + " ") == Ascii(s) + [SPACE]
  {
    AsciiJoin(s, " ");
    Blank();
    KeywordTokens(s);
  }

  /** ` set `, ` FROM `, ` WHERE `. */
  lemma KeywordInSpaces(s: string)
    requires Letters(s)
    ensures Tokens(Ascii(" " + s + " ")) == [Word(Ascii(s))] && Ascii(" " + s + " ") == [SPACE] + Ascii(s) + [SPACE]
  {
    AsciiJoin(" " + s, " ");
    AsciiJoin(" ", s);
    Blank();
    KeywordTokens(s);
  }

  /** `INSERT INTO `, `USING TTL `. */
  lemma TwoKeywords(s: string, t: string)
    requires Letters(s) && Letters(t)
    ensures Tokens(Ascii(s + " " + t + " ")) == [Word(Ascii(s)), Word(Ascii(t))]
    ensures Ascii(s + " " + t + " ") == (Ascii(s) + [SPACE]) + (Ascii(t) + [SPACE])
  {
    hide Tokens, Ascii;
    AsciiJoin(s + " " + t, " ");
    AsciiJoin(s + " ", t);
    AsciiJoin(s, " ");
    Blank();
    KeywordTokens(s);
    KeywordTokens(t);
    assert Ascii(s + " " + t + " ") == (Ascii(s) + [SPACE]) + (Ascii(t) + [SPACE]);
    TokensJoin(Ascii(s) + [SPACE], Ascii(t) + [SPACE]);
  }

  lemma SymbolTokens(c: int, rest: seq<Byte>)
    requires 0 <= c < 256 && IsSymbol(c)
    ensures Tokens([c] + rest) == [Symbol(c)] + Tokens(rest) && Tokens([SPACE] + rest) == Tokens(rest)
  {
    assert ([c] + rest)[1..] == rest && ([SPACE] + rest)[1..] == rest;
  }

  lemma NoTokens()
    ensures Tokens([]) == []
  {
  }

  /** Two and three texts in a row. */
  lemma JoinTwo(x: seq<Byte>, y: seq<Byte>)
    requires Apart(x, y)
    ensures Flat([x, y]) == x + y && Tokens(x + y) == Tokens(x) + Tokens(y)
  {
    hide Tokens, Flat, Apart;
    FlatTwo(x, y);
    TokensJoin(x, y);
  }

  lemma JoinThree(x: seq<Byte>, y: seq<Byte>, z: seq<Byte>)
    requires Apart(x, y) && Apart(y, z) && y != []
    ensures Flat([x, y, z]) == x + y + z && Tokens(x + y + z) == Tokens(x) + Tokens(y) + Tokens(z)
  {
    hide Tokens, Flat;
    FlatThree(x, y, z);
    TokensJoin(x, y);
    TokensJoin(x + y, z);
  }

  // ---------------------------------------------------------------------------------------------
  // Statements
  // ---------------------------------------------------------------------------------------------

  /** `key=?` after ` WHERE `. */
  lemma WhereTokens(key: seq<Byte>)
    requires IsName(key)
    ensures var w := Flat([Ascii(" WHERE "), key, Ascii("=?")]);
            Tokens(w) == [Word(Ascii("WHERE")), Word(key), Symbol('=' as int), Symbol('?' as int)] && |w| > 0 && w[0] == SPACE
  {
    hide Tokens, Flat;
    WherePieces();
    NameTokens(key);
    JoinThree(Ascii(" WHERE "), key, Ascii("=?"));
  }

  lemma WherePieces()
    ensures Tokens(Ascii(" WHERE ")) == [Word(Ascii("WHERE"))] && Ascii(" WHERE ") == [SPACE] + Ascii("WHERE") + [SPACE]
    ensures Tokens(Ascii("=?")) == [Symbol('=' as int), Symbol('?' as int)] && Ascii("=?") == ['=' as int, '?' as int]
  {
    hide Tokens;
    KeywordInSpaces("WHERE");
    assert " " + "WHERE" + " " == " WHERE ";
    TwoSymbols('=', '?');
    assert Ascii("=?") == ['=' as int, '?' as int];
  }

  lemma OneSymbol(c: char)
    requires c < 256 as char && IsSymbol(c as int)
    ensures Tokens([c as int]) == [Symbol(c as int)]
  {
    SymbolTokens(c as int, []);
    NoTokens();
    assert [c as int] + [] == [c as int];
  }

  lemma TwoSymbols(c: char, d: char)
    requires c < 256 as char && d < 256 as char && IsSymbol(c as int) && IsSymbol(d as int)
    ensures Tokens([c as int, d as int]) == [Symbol(c as int), Symbol(d as int)]
  {
    hide Tokens;
    OneSymbol(d);
    SymbolTokens(c as int, [d as int]);
    assert [c as int] + [d as int] == [c as int, d as int];
  }

  /** The digits written for a number are read as that number. */
  lemma {:induction false} NumberReads(n: nat)
    ensures Number(Ascii(Digits(n))) == Some(n)
  {
    hide Digits;
    LastDigit(n);
    if n >= 10 {
      NumberReads(n / 10);
    }
  }

  lemma LastDigit(n: nat)
    ensures var w := Ascii(Digits(n));
            w != [] && w[|w| - 1] == '0' as int + n % 10 && if n < 10 then |w| == 1 else |w| > 1 && w[..|w| - 1] == Ascii(Digits(n / 10))
  {
    DigitsReadBack(n);
    if n >= 10 {
      DigitsReadBack(n / 10);
    }
  }

  lemma DigitsAreNames(n: nat)
    ensures IsName(Ascii(Digits(n)))
  {
    hide Digits, NumberOf;
    DigitsReadBack(n);
  }

  // UPDATE

  function Sign(count: int): char {
    if count > 0 then '+' else '-'
  }

  lemma UpdateHead(table: seq<Byte>, counter: seq<Byte>)
    requires IsName(table) && IsName(counter)
    ensures var h := Flat([Ascii("UPDATE "), table, Ascii(" set ")]) + Flat([counter, Ascii("="), counter]);
            Tokens(h) == [Word(Ascii("UPDATE")), Word(table), Word(Ascii("set")), Word(counter), Symbol('=' as int), Word(counter)]
  {
    hide Tokens, Flat;
    UpdatePieces();
    EqualsPiece();
    NameTokens(table);
    NameTokens(counter);
    JoinThree(Ascii("UPDATE "), table, Ascii(" set "));
    JoinThree(counter, Ascii("="), counter);
    TokensJoin(Ascii("UPDATE ") + table + Ascii(" set "), counter + Ascii("=") + counter);
  }

  lemma UpdatePieces()
    ensures Tokens(Ascii("UPDATE ")) == [Word(Ascii("UPDATE"))] && Ascii("UPDATE ") == Ascii("UPDATE") + [SPACE]
    ensures Tokens(Ascii(" set ")) == [Word(Ascii("set"))] && Ascii(" set ") == [SPACE] + Ascii("set") + [SPACE]
  {
    KeywordAndSpace("UPDATE");
    KeywordInSpaces("set");
    assert "UPDATE" + " " == "UPDATE " && " " + "set" + " " == " set ";
  }

  lemma EqualsPiece()
    ensures Tokens(Ascii("=")) == [Symbol('=' as int)] && Ascii("=") == ['=' as int]
  {
    OneSymbol('=');
    assert Ascii("=") == ['=' as int];
  }

  lemma SignPiece(count: int)
    ensures var sign := Ascii(if count > 0 then "+" else "-");
            sign == [Sign(count) as int] && Tokens(sign) == [Symbol(Sign(count) as int)]
  {
    OneSymbol(Sign(count));
    assert Ascii(if count > 0 then "+" else "-") == [Sign(count) as int];
  }

  lemma SignedTokens(count: int)
    ensures var d := Flat([Ascii(if count > 0 then "+" else "-"), Ascii(Digits(Abs(count)))]);
            && Tokens(d) == [Symbol(Sign(count) as int), Word(Ascii(Digits(Abs(count))))]
            && d != [] && d[0] == Sign(count) as int
  {
    hide Tokens, Flat, Digits;
    SignPiece(count);
    DigitsAreNames(Abs(count));
    NameTokens(Ascii(Digits(Abs(count))));
    JoinTwo(Ascii(if count > 0 then "+" else "-"), Ascii(Digits(Abs(count))));
  }

  lemma AddTokens(table: seq<Byte>, key: seq<Byte>, counter: seq<Byte>, count: int)
    requires IsName(table) && IsName(key) && IsName(counter)
    ensures Tokens(Flat(AddPieces(table, key, counter, count)))
         == [Word(Ascii("UPDATE")), Word(table), Word(Ascii("set")), Word(counter), Symbol('=' as int), Word(counter)]
          + [Symbol(Sign(count) as int), Word(Ascii(Digits(Abs(count))))]
          + [Word(Ascii("WHERE")), Word(key), Symbol('=' as int), Symbol('?' as int)]
  {
    hide Tokens, Flat, Digits, Ascii;
    var a, b := [Ascii("UPDATE "), table, Ascii(" set ")], [counter, Ascii("="), counter];
    var d, w := [Ascii(if count > 0 then "+" else "-"), Ascii(Digits(Abs(count)))], [Ascii(" WHERE "), key, Ascii("=?")];
    assert AddPieces(table, key, counter, count) == a + b + d + w;
    FlatJoin(a, b);
    FlatJoin(a + b, d);
    FlatJoin(a + b + d, w);
    UpdateHead(table, counter);
    SignedTokens(count);
    WhereTokens(key);
    TokensJoin(Flat(a) + Flat(b), Flat(d));
    TokensJoin(Flat(a) + Flat(b) + Flat(d), Flat(w));
  }

  /** `s` is the keyword `t` in some mixture of cases. */
  predicate SameWord(s: string, t: string) {
    |s| == |t| && forall i :: 0 <= i < |s| ==> s[i] < 256 as char && (s[i] == t[i] || s[i] as int == t[i] as int + 32)
  }

  lemma SpellsWord(s: string, t: string)
    requires SameWord(s, t)
    ensures Spells(Word(Ascii(s)), t)
  {
  }

  lemma SpellsNot(s: string, t: string)
    requires s != [] && t != [] && s[0] < 256 as char && s[0] != t[0] && s[0] as int != t[0] as int + 32
    ensures !Spells(Word(Ascii(s)), t)
  {
  }

  lemma UpdateKeywords()
    ensures Spells(Word(Ascii("UPDATE")), "UPDATE") && !Spells(Word(Ascii("UPDATE")), "INSERT")
    ensures Spells(Word(Ascii("set")), "SET") && Spells(Word(Ascii("WHERE")), "WHERE")
  {
    hide Spells, Ascii;
    SpellsWord("UPDATE", "UPDATE");
    SpellsNot("UPDATE", "INSERT");
    SpellsWord("set", "SET");
    SpellsWord("WHERE", "WHERE");
  }

  /** The text of `Add`, with its one value, reads as adding exactly the given signed number to the given counter of the given row. */
  lemma AddReads<V>(table: seq<Byte>, key: seq<Byte>, counter: seq<Byte>, count: int, row: V)
    requires IsName(table) && IsName(key) && IsName(counter)
    ensures ReadEffect(Flat(AddPieces(table, key, counter, count)), [row]) == Some(AddTo(table, counter, count, Cell(key, row)))
  {
    hide Tokens, Flat, Digits, AddPieces, Number, Spells, Ascii;
    AddTokens(table, key, counter, count);
    NumberReads(Abs(count));
    UpdateKeywords();
    var ts := Tokens(Flat(AddPieces(table, key, counter, count)));
    assert ts[8..] == [Word(Ascii("WHERE")), Word(key), Symbol('=' as int), Symbol('?' as int)];
  }

  // DELETE

  lemma DeletePiecesTokens()
    ensures Tokens(Ascii("Delete ")) == [Word(Ascii("Delete"))] && Ascii("Delete ") == Ascii("Delete") + [SPACE]
    ensures Tokens(Ascii(" FROM ")) == [Word(Ascii("FROM"))] && Ascii(" FROM ") == [SPACE] + Ascii("FROM") + [SPACE]
  {
    KeywordAndSpace("Delete");
    KeywordInSpaces("FROM");
    assert "Delete" + " " == "Delete " && " " + "FROM" + " " == " FROM ";
  }

  function ColumnTokens(column: seq<Byte>): seq<Token> {
    if column == [] then [] else [Word(column)]
  }

  lemma DeleteTokens(table: seq<Byte>, key: seq<Byte>, column: seq<Byte>)
    requires IsName(table) && IsName(key) && (column == [] || IsName(column))
    ensures Tokens(Flat(DeletePieces(table, key, column)))
         == [Word(Ascii("Delete"))] + ColumnTokens(column) + [Word(Ascii("FROM")), Word(table)]
          + [Word(Ascii("WHERE")), Word(key), Symbol('=' as int), Symbol('?' as int)]
  {
    hide Tokens, Flat, Ascii;
    var a, b, w := [Ascii("Delete "), column], [Ascii(" FROM "), table], [Ascii(" WHERE "), key, Ascii("=?")];
    assert DeletePieces(table, key, column) == a + b + w;
    FlatJoin(a, b);
    FlatJoin(a + b, w);
    DeletePiecesTokens();
    WhereTokens(key);
    NameTokens(table);
    if column == [] {
      NoTokens();
    } else {
      NameTokens(column);
    }
    JoinTwo(Ascii("Delete "), column);
    JoinTwo(Ascii(" FROM "), table);
    TokensJoin(Flat(a), Flat(b));
    TokensJoin(Flat(a) + Flat(b), Flat(w));
  }

  lemma DeleteKeywords()
    ensures !Spells(Word(Ascii("Delete")), "UPDATE") && !Spells(Word(Ascii("Delete")), "INSERT") && Spells(Word(Ascii("Delete")), "DELETE")
    ensures Spells(Word(Ascii("FROM")), "FROM") && Spells(Word(Ascii("WHERE")), "WHERE")
  {
    hide Spells, Ascii;
    SpellsWord("Delete", "DELETE");
    SpellsNot("Delete", "UPDATE");
    SpellsNot("Delete", "INSERT");
    SpellsWord("FROM", "FROM");
    SpellsWord("WHERE", "WHERE");
  }

  /** The text of `Delete` reads as removing the given column, or the whole row if it is empty, of the given row. */
  lemma DeleteReads<V>(table: seq<Byte>, key: seq<Byte>, column: seq<Byte>, row: V)
    requires IsName(table) && IsName(key) && (column == [] || (IsName(column) && !Spells(Word(column), "FROM")))
    ensures ReadEffect(Flat(DeletePieces(table, key, column)), [row])
         == Some(Remove(table, if column == [] then None else Some(column), Cell(key, row)))
  {
    hide Tokens, Flat, DeletePieces, Spells, Ascii;
    DeleteTokens(table, key, column);
    DeleteKeywords();
    var ts := Tokens(Flat(DeletePieces(table, key, column)));
    var from := if column == [] then 1 else 2;
    assert ts[from + 2..] == [Word(Ascii("WHERE")), Word(key), Symbol('=' as int), Symbol('?' as int)];
  }

  // INSERT

  lemma InsertPiecesTokens()
    ensures Tokens(Ascii("INSERT INTO ")) == [Word(Ascii("INSERT")), Word(Ascii("INTO"))]
    ensures var n := |Ascii("INSERT INTO ")|; n > 0 && Ascii("INSERT INTO ")[n - 1] == SPACE
  {
    hide Tokens;
    TwoKeywords("INSERT", "INTO");
    assert "INSERT" + " " + "INTO" + " " == "INSERT INTO ";
  }

  lemma ListPieces()
    ensures Tokens(Ascii(" (")) == [Symbol('(' as int)] && Ascii(" (") == [SPACE, '(' as int]
    ensures Tokens(Ascii(", ")) == [Symbol(',' as int)] && Ascii(", ") == [',' as int, SPACE]
  {
    hide Tokens;
    OneSymbol('(');
    SymbolTokens(',' as int, ['(' as int]);
    OneSpace();
    SymbolTokens(',' as int, [SPACE]);
    assert Ascii(" (") == [SPACE] + ['(' as int] && Ascii(", ") == [',' as int] + [SPACE];
  }

  function Markers(): seq<Token> {
    [Symbol(')' as int), Word(Ascii("VALUES")), Symbol('(' as int), Symbol('?' as int), Symbol(',' as int), Symbol('?' as int), Symbol(')' as int)]
  }

  lemma MarkerTokens()
    ensures Tokens(Ascii(") VALUES (?, ?)")) == Markers()
    ensures var m := Ascii(") VALUES (?, ?)"); |m| > 0 && m[0] == ')' as int && m[|m| - 1] == ')' as int
  {
    hide Tokens;
    var list: seq<Byte> := ['(' as int, '?' as int, ',' as int, SPACE, '?' as int, ')' as int];
    KeywordInSpaces("VALUES");
    assert " " + "VALUES" + " " == " VALUES ";
    AsciiJoin(")", " VALUES ");
    AsciiJoin(")" + " VALUES ", "(?, ?)");
    assert ")" + " VALUES " + "(?, ?)" == ") VALUES (?, ?)";
    assert Ascii(")") == [')' as int] && Ascii("(?, ?)") == list;
    ListTokens();
    SymbolTokens(')' as int, Ascii(" VALUES "));
    TokensJoin([')' as int] + Ascii(" VALUES "), list);
  }

  lemma ListTokens()
    ensures Tokens(['(' as int, '?' as int, ',' as int, SPACE, '?' as int, ')' as int])
         == [Symbol('(' as int), Symbol('?' as int), Symbol(',' as int), Symbol('?' as int), Symbol(')' as int)]
  {
    hide Tokens;
    NoTokens();
    SymbolTokens(')' as int, []);
    SymbolTokens('?' as int, [')' as int]);
    SymbolTokens(',' as int, ['?' as int, ')' as int]);
    SymbolTokens(',' as int, [SPACE, '?' as int, ')' as int]);
    SymbolTokens('?' as int, [',' as int, SPACE, '?' as int, ')' as int]);
    SymbolTokens('(' as int, ['?' as int, ',' as int, SPACE, '?' as int, ')' as int]);
    assert [')' as int] + [] == [')' as int] && ['?' as int] + [')' as int] == ['?' as int, ')' as int];
    assert [SPACE] + ['?' as int, ')' as int] == [SPACE, '?' as int, ')' as int];
    assert [',' as int] + [SPACE, '?' as int, ')' as int] == [',' as int, SPACE, '?' as int, ')' as int];
    assert ['?' as int] + [',' as int, SPACE, '?' as int, ')' as int] == ['?' as int, ',' as int, SPACE, '?' as int, ')' as int];
    assert ['(' as int] + ['?' as int, ',' as int, SPACE, '?' as int, ')' as int] == ['(' as int, '?' as int, ',' as int, SPACE, '?' as int, ')' as int];
  }

  /** The pieces that ask for a time to live. */
  function TtlPieces(ttl: int): seq<seq<Byte>> {
    if ttl > 0 then [Ascii("USING TTL "), Ascii(Digits(ttl))] else []
  }

  function TtlTokens(ttl: int): seq<Token> {
    if ttl > 0 then [Word(Ascii("USING")), Word(Ascii("TTL")), Word(Ascii(Digits(ttl)))] else []
  }

  lemma TtlIsSpoken(ttl: int)
    ensures Tokens(Flat(TtlPieces(ttl))) == TtlTokens(ttl)
  {
    hide Tokens, Flat, Digits, Ascii;
    NoTokens();
    NoPieces();
    if ttl > 0 {
      UsingPiece();
      DigitsAreNames(ttl);
      NameTokens(Ascii(Digits(ttl)));
      JoinTwo(Ascii("USING TTL "), Ascii(Digits(ttl)));
    }
  }

  lemma UsingPiece()
    ensures Tokens(Ascii("USING TTL ")) == [Word(Ascii("USING")), Word(Ascii("TTL"))]
    ensures var n := |Ascii("USING TTL ")|; n > 0 && Ascii("USING TTL ")[n - 1] == SPACE
  {
    TwoKeywords("USING", "TTL");
    assert "USING" + " " + "TTL" + " " == "USING TTL ";
  }

  lemma InsertTokens(table: seq<Byte>, key: seq<Byte>, column: seq<Byte>, ttl: int)
    requires IsName(table) && IsName(key) && IsName(column)
    ensures Tokens(Flat(InsertPieces(table, key, column, ttl)))
         == [Word(Ascii("INSERT")), Word(Ascii("INTO")), Word(table), Symbol('(' as int)]
          + [Word(key), Symbol(',' as int), Word(column)] + Markers() + TtlTokens(ttl)
  {
    hide Tokens, Flat, Ascii, TtlPieces, TtlTokens, Markers;
    var a, b, m := [Ascii("INSERT INTO "), table, Ascii(" (")], [key, Ascii(", "), column], [Ascii(") VALUES (?, ?)")];
    assert InsertPieces(table, key, column, ttl) == a + b + m + TtlPieces(ttl) by { hide *; InsertSplit(table, key, column, ttl); }
    FlatJoin(a, b);
    FlatJoin(a + b, m);
    FlatJoin(a + b + m, TtlPieces(ttl));
    InsertPiecesTokens();
    ListPieces();
    MarkerTokens();
    TtlIsSpoken(ttl);
    NameTokens(table);
    NameTokens(key);
    NameTokens(column);
    JoinThree(a[0], a[1], a[2]);
    JoinThree(b[0], b[1], b[2]);
    FlatOne(m[0]);
    TokensJoin(Flat(a), Flat(b));
    TokensJoin(Flat(a) + Flat(b), m[0]);
    TokensJoin(Flat(a) + Flat(b) + m[0], Flat(TtlPieces(ttl)));
  }

  lemma InsertSplit(table: seq<Byte>, key: seq<Byte>, column: seq<Byte>, ttl: int)
    ensures InsertPieces(table, key, column, ttl)
         == [Ascii("INSERT INTO "), table, Ascii(" (")] + [key, Ascii(", "), column] + [Ascii(") VALUES (?, ?)")] + TtlPieces(ttl)
  {
  }

  lemma InsertKeywords()
    ensures Spells(Word(Ascii("INSERT")), "INSERT") && Spells(Word(Ascii("INTO")), "INTO") && Spells(Word(Ascii("VALUES")), "VALUES")
    ensures Spells(Word(Ascii("USING")), "USING") && Spells(Word(Ascii("TTL")), "TTL")
  {
    hide Spells, Ascii;
    SpellsWord("INSERT", "INSERT");
    SpellsWord("INTO", "INTO");
    SpellsWord("VALUES", "VALUES");
    SpellsWord("USING", "USING");
    SpellsWord("TTL", "TTL");
  }

  lemma TtlReads(ttl: int)
    ensures ReadTtl(TtlTokens(ttl)) == Some(if ttl > 0 then Some(ttl) else None)
  {
    hide Digits, Number, Ascii, Spells;
    InsertKeywords();
    if ttl > 0 {
      NumberReads(ttl);
    }
  }

  lemma TwoNamesRead(x: seq<Byte>, y: seq<Byte>, rest: seq<Token>)
    ensures ReadNames([Word(x), Symbol(',' as int), Word(y), Symbol(')' as int)] + rest) == Some(Listed([x, y], rest))
  {
    var ts := [Word(x), Symbol(',' as int), Word(y), Symbol(')' as int)] + rest;
    assert ts[2..] == [Word(y), Symbol(')' as int)] + rest && ts[2..][2..] == rest;
    assert ReadNames(ts[2..]) == Some(Listed([y], rest));
    assert [x] + [y] == [x, y];
  }

  lemma TwoMarkersRead(rest: seq<Token>)
    ensures ReadMarkers([Symbol('?' as int), Symbol(',' as int), Symbol('?' as int), Symbol(')' as int)] + rest) == Some(Counted(2, rest))
  {
    var ts := [Symbol('?' as int), Symbol(',' as int), Symbol('?' as int), Symbol(')' as int)] + rest;
    assert ts[2..] == [Symbol('?' as int), Symbol(')' as int)] + rest && ts[2..][2..] == rest;
    assert ReadMarkers(ts[2..]) == Some(Counted(1, rest));
  }

  lemma TwoPaired<V>(x: seq<Byte>, y: seq<Byte>, v: V, w: V)
    ensures Pair([x, y], [v, w]) == [Cell(x, v), Cell(y, w)]
  {
    assert [x, y][1..] == [y] && [v, w][1..] == [w] && [y][1..] == [] && [w][1..] == [];
    assert Pair([y], [w]) == [Cell(y, w)];
  }

  /** The text of `Insert` reads as setting the key and the column of one row to the two values, for the time given if it is positive. */
  lemma InsertReads<V>(table: seq<Byte>, key: seq<Byte>, column: seq<Byte>, ttl: int, row: V, value: V)
    requires IsName(table) && IsName(key) && IsName(column)
    ensures ReadEffect(Flat(InsertPieces(table, key, column, ttl)), [row, value])
         == Some(SetCells(table, [Cell(key, row), Cell(column, value)], if ttl > 0 then Some(ttl) else None))
  {
    hide Tokens, Flat, InsertPieces, TtlTokens, Spells, Ascii, ReadNames, ReadMarkers, ReadTtl, Pair;
    InsertTokens(table, key, column, ttl);
    InsertKeywords();
    var ts, tail := Tokens(Flat(InsertPieces(table, key, column, ttl))), TtlTokens(ttl);
    var marks := [Symbol('?' as int), Symbol(',' as int), Symbol('?' as int), Symbol(')' as int)] + tail;
    var values := [Word(Ascii("VALUES")), Symbol('(' as int)] + marks;
    assert ts[4..] == [Word(key), Symbol(',' as int), Word(column), Symbol(')' as int)] + values;
    assert values[2..] == marks;
    TwoNamesRead(key, column, values);
    TwoMarkersRead(tail);
    TtlReads(ttl);
    TwoPaired(key, column, row, value);
  }

  // ---------------------------------------------------------------------------------------------
  // On the wire
  // ---------------------------------------------------------------------------------------------

  /** A convenience call whose names are names in CQL. */
  predicate Speakable(c: Call) {
    match c
    case InsertCall(keyName, _, column, _, table, _) => IsName(keyName) && IsName(column) && IsName(table)
    case AddCall(keyName, _, counter, _, table) => IsName(keyName) && IsName(counter) && IsName(table)
    case DeleteCall(keyName, _, column, table) =>
      IsName(keyName) && IsName(table) && (column == [] || (IsName(column) && !Spells(Word(column), "FROM")))
    case _ => false
  }

  /** What the call is meant to do, with every value as the server sees it. */
  function Meant(c: Call): Effect<Bound>
    requires Speakable(c)
  {
    match c
    case InsertCall(keyName, key, column, value, table, ttl) =>
      SetCells(table, [Cell(keyName, Some(Content(key))), Cell(column, Some(Content(value)))], if ttl > 0 then Some(ttl) else None)
    case AddCall(keyName, key, counter, step, table) => AddTo(table, counter, step, Cell(keyName, Some(Content(key))))
    case DeleteCall(keyName, key, column, table) =>
      Remove(table, if column == [] then None else Some(column), Cell(keyName, Some(Content(key))))
  }

  lemma OneBinding(v: Value)
    ensures Bindings([v]) == [Some(Content(v))]
  {
    assert [v][1..] == [];
  }

  lemma TwoBindings(v: Value, w: Value)
    ensures Bindings([v, w]) == [Some(Content(v)), Some(Content(w))]
  {
    assert [v, w][1..] == [w];
    OneBinding(w);
  }

  /** The query that a convenience call makes does what the call says. */
  lemma CallReads(c: Call)
    requires Speakable(c)
    ensures var s := Meaning(QueryOf(c)); ReadEffect(s.text, s.values) == Some(Meant(c))
  {
    hide ReadEffect, Flat, Content, Bindings, IsName, InsertPieces, AddPieces, DeletePieces, Spells;
    match c
    case InsertCall(keyName, key, column, value, table, ttl) =>
      TwoBindings(key, value);
      InsertReads(table, keyName, column, ttl, Some(Content(key)), Some(Content(value)));
    case AddCall(keyName, key, counter, step, table) =>
      OneBinding(key);
      AddReads(table, keyName, counter, step, Some(Content(key)));
    case DeleteCall(keyName, key, column, table) =>
      OneBinding(key);
      DeleteReads(table, keyName, column, Some(Content(key)));
  }

  /** The statements of a message in order. */
  function StatementsOf(m: Message): seq<Statement> {
    match m
    case QueryMessage(s, _) => [s]
    case BatchMessage(_, ss, _) => ss
  }

  lemma {:induction false} MeaningsAt(qs: seq<Query>, i: nat)
    requires i < |qs|
    ensures |Meanings(qs)| == |qs| && Meanings(qs)[i] == Meaning(qs[i])
  {
    if i > 0 {
      MeaningsAt(qs[1..], i - 1);
    } else if |qs| > 1 {
      MeaningsAt(qs[1..], 0);
    }
  }

  /**
   End to end: in the body that `SendTwice` sends for any queries the server finds, in the place of each convenience
   call, a statement that does what the call says.
   */
  lemma SentMeans(items: seq<Item>, i: nat)
    requires i < |items| && (forall k :: 0 <= k < |items| ==> ItemOk(items[k])) && Speakable(items[i].call)
    requires AllFit(Wanted(items), NOTHING.settings)
    ensures var m := ReadBody(|items| == 1, Body(KindOf(items), Wanted(items), NOTHING.settings));
            && m.Some? && |StatementsOf(m.value)| == |items|
            && var s := StatementsOf(m.value)[i]; ReadEffect(s.text, s.values) == Some(Meant(items[i].call))
  {
    hide ReadBody, Body, KindOf, AllFit, ReadEffect, Meanings, Meaning, Meant, QueryOf;
    SameLength(items);
    BodyReads(KindOf(items), Wanted(items), NOTHING.settings);
    MeaningsAt(Wanted(items), i);
    WantedAlone(items[i]);
    CallReads(items[i].call);
  }

  lemma WantedAlone(item: Item)
    requires ItemOk(item) && Speakable(item.call)
    ensures WantedOf(item) == QueryOf(item.call)
  {
    var q := QueryOf(item.call);
    assert item.values == [] && q.values + [] == q.values;
  }
}
