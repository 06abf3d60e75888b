/** internal/igdb/query.go and Client.Search: a user's query inside an Apicalypse string
    literal. Strings are sequences of runes. */
module SearchQuery {
  import opened Wrappers

  /** Unicode category Cc. */
  predicate IsControl(r: char) {
    (r as int) < 0x20 || 0x7f <= (r as int) < 0xa0
  }

  predicate IsBreak(r: char) {
    r == '\n' || r == '\r' || r == '\t'
  }

  function EscapedRune(r: char): string {
    if r == '\\' || r == '\"' then ['\\', r]
    else if IsBreak(r) then " "
    else if IsControl(r) then ""
    else [r]
  }

  function Escaped(raw: string): string {
    if raw == "" then "" else EscapedRune(raw[0]) + Escaped(raw[1..])
  }

  lemma {:induction false} EscapedAppend(raw: string, r: char)
    ensures Escaped(raw + [r]) == Escaped(raw) + EscapedRune(r)
  {
    if raw == "" {
      assert [r][1..] == "";
      assert Escaped([r]) == EscapedRune(r) + "";
    } else {
      assert (raw + [r])[1..] == raw[1..] + [r];
      EscapedAppend(raw[1..], r);
    }
  }

  method EscapeSearchTerm(raw: string) returns (b: string)
    ensures b == Escaped(raw)
  {
    b := "";
    for i := 0 to |raw|
      invariant b == Escaped(raw[..i])
    {
      var r := raw[i];
      assert raw[..i + 1] == raw[..i] + [r];
      EscapedAppend(raw[..i], r);
      if r == '\\' || r == '\"' {
        b := b + ['\\', r];
      } else if IsBreak(r) {
        b := b + " ";
      } else if IsControl(r) {
      } else {
        b := b + [r];
      }
    }
    assert raw[..|raw|] == raw;
  }

  // -------------------------------------------------------------- reading it back

  function Prefixed(r: char, lexed: Option<(string, string)>): Option<(string, string)> {
    match lexed
    case None => None
    case Some((content, rest)) => Some(([r] + content, rest))
  }

  /** A string-literal lexer, started just after the opening quote: a backslash takes the
      next rune as it is, a bare quote closes. It gives the content and what follows. */
  function Lex(s: string): Option<(string, string)>
    decreases |s|
  {
    if s == "" then None
    else if s[0] == '\"' then Some(("", s[1..]))
    else if s[0] == '\\' then
      if |s| < 2 then None else Prefixed(s[1], Lex(s[2..]))
    else Prefixed(s[0], Lex(s[1..]))
  }

  /** What the user asked for: line breaks and tabs as spaces, other controls gone. */
  function Meant(raw: string): string {
    if raw == "" then ""
    else if IsBreak(raw[0]) then " " + Meant(raw[1..])
    else if IsControl(raw[0]) then Meant(raw[1..])
    else [raw[0]] + Meant(raw[1..])
  }

  /** Lexing past one escaped rune leaves what the rune means. */
  lemma LexPastRune(r: char, tail: string)
    ensures Lex(EscapedRune(r) + tail) ==
      if IsBreak(r) then Prefixed(' ', Lex(tail)) else if IsControl(r) then Lex(tail) else Prefixed(r, Lex(tail))
  {
    var head := EscapedRune(r);
    if head == "" {
      assert head + tail == tail;
    } else {
      assert (head + tail)[|head|..] == tail;
    }
  }

  /** Whatever the query, it stays inside its literal: lexing stops at the closing quote the
      program wrote, with the meant query as content and everything after it left over. */
  lemma {:induction false} LexesBack(raw: string, after: string)
    ensures Lex(Escaped(raw) + "\"" + after) == Some((Meant(raw), after))
  {
    if raw == "" {
      assert (Escaped(raw) + "\"" + after)[1..] == after;
    } else {
      LexesBack(raw[1..], after);
      var tail := Escaped(raw[1..]) + "\"" + after;
      assert Escaped(raw) + "\"" + after == EscapedRune(raw[0]) + tail;
      LexPastRune(raw[0], tail);
    }
  }

  lemma {:induction false} EscapedFromMeaning(raw: string)
    ensures Escaped(Meant(raw)) == Escaped(raw)
  {
    if raw == "" {
    } else {
      EscapedFromMeaning(raw[1..]);
      if IsBreak(raw[0]) {
        assert (" " + Meant(raw[1..]))[1..] == Meant(raw[1..]);
      } else if !IsControl(raw[0]) {
        assert ([raw[0]] + Meant(raw[1..]))[1..] == Meant(raw[1..]);
      }
    }
  }

  /** Two queries are escaped alike exactly when they mean the same. */
  lemma EscapingIsInjectiveOnMeaning(a: string, b: string)
    ensures Escaped(a) == Escaped(b) <==> Meant(a) == Meant(b)
  {
    LexesBack(a, "");
    LexesBack(b, "");
    EscapedFromMeaning(a);
    EscapedFromMeaning(b);
  }

  /** The meaning of a query is that of its runes in turn. */
  lemma {:induction false} MeantRuneByRune(a: string, b: string)
    ensures Meant(a + b) == Meant(a) + Meant(b)
  {
    if a == "" {
      assert a + b == b;
    } else {
      assert (a + b)[1..] == a[1..] + b;
      MeantRuneByRune(a[1..], b);
    }
  }

  /** ... and each means itself, but for tab, newline and carriage return, which mean a space,
      and the other controls of U+0000 to U+001F and U+007F to U+009F, which mean nothing. */
  lemma RuneMeans(r: char)
    ensures Meant([r]) ==
      if r as int in {0x09, 0x0a, 0x0d} then " "
      else if (r as int) <= 0x1f || 0x7f <= (r as int) <= 0x9f then ""
      else [r]
  {
    assert [r][1..] == "";
    assert ('\n' as int) == 0x0a && ('\r' as int) == 0x0d && ('\t' as int) == 0x09;
  }

  lemma {:induction false} ControlFreeMeansItself(raw: string)
    requires forall i :: 0 <= i < |raw| ==> !IsControl(raw[i])
    ensures Meant(raw) == raw
  {
    if raw == "" {
    } else {
      ControlFreeMeansItself(raw[1..]);
    }
  }

  /** On control-free queries escaping loses nothing. */
  lemma EscapingIsInjective(a: string, b: string)
    requires forall i :: 0 <= i < |a| ==> !IsControl(a[i])
    requires forall i :: 0 <= i < |b| ==> !IsControl(b[i])
    ensures Escaped(a) == Escaped(b) ==> a == b
  {
    ControlFreeMeansItself(a);
    ControlFreeMeansItself(b);
    EscapingIsInjectiveOnMeaning(a, b);
  }

  // ------------------------------------------------------------- the request body

  const GAME_FIELDS: string := "fields id,name,cover.image_id,first_release_date,game_type.type,parent_game,summary,"
    + "genres.id,genres.name,themes.id,themes.name,game_modes.id,game_modes.name;"

  const EXCLUDED_TYPES: seq<nat> := [1, 2, 5, 12, 13, 14]

  function Itoa(n: nat): string {
    if n < 10 then [(('0' as int) + n) as char] else Itoa(n / 10) + Itoa(n % 10)
  }

  function Excluding(types: seq<nat>): string {
    if types == [] then ""
    else "game_type != " + Itoa(types[0]) + (if |types| == 1 then "" else " & ") + Excluding(types[1..])
  }

  /** Everything Search writes after the literal. */
  function FixedClauses(limit: nat): string {
    "; " + GAME_FIELDS + " where " + Excluding(EXCLUDED_TYPES) + "; limit " + Itoa(limit) + ";"
  }

  /** A decimal numeral, read. */
  function Atoi(s: string): int {
    if s == "" then 0 else Atoi(s[..|s| - 1]) * 10 + (s[|s| - 1] as int - '0' as int)
  }

  lemma {:induction false} ItoaReads(n: nat)
    ensures Itoa(n) != "" && Atoi(Itoa(n)) == n
    ensures forall i :: 0 <= i < |Itoa(n)| ==> '0' <= Itoa(n)[i] <= '9'
  {
    if n < 10 {
      assert Itoa(n)[..0] == "";
    } else {
      ItoaReads(n / 10);
      var s := Itoa(n / 10) + Itoa(n % 10);
      assert s[..|s| - 1] == Itoa(n / 10);
    }
  }

  function NotType(digits: string): string {
    "game_type != " + digits
  }

  function And(first: string, rest: string): string {
    first + " & " + rest
  }

  lemma ExcludingMore(n: nat, digits: string, types: seq<nat>, rest: string)
    requires types != [] && Itoa(n) == digits && Excluding(types) == rest
    ensures Excluding([n] + types) == And(NotType(digits), rest)
  {
    assert ([n] + types)[1..] == types;
  }

  lemma TwoDigits()
    ensures Itoa(12) == "12" && Itoa(13) == "13" && Itoa(14) == "14"
  {
    assert Itoa(1) == "1" && Itoa(2) == "2" && Itoa(3) == "3" && Itoa(4) == "4";
  }

  lemma ExcludedTypesRead()
    ensures Excluding(EXCLUDED_TYPES) ==
      And(NotType("1"), And(NotType("2"), And(NotType("5"), And(NotType("12"), And(NotType("13"), NotType("14"))))))
  {
    TwoDigits();
    assert Excluding([14]) == NotType("14");
    ExcludingMore(13, "13", [14], NotType("14"));
    ExcludingMore(12, "12", [13] + [14], And(NotType("13"), NotType("14")));
    var rest := And(NotType("12"), And(NotType("13"), NotType("14")));
    ExcludingMore(5, "5", [12] + ([13] + [14]), rest);
    ExcludingMore(2, "2", [5] + ([12] + ([13] + [14])), And(NotType("5"), rest));
    ExcludingMore(1, "1", [2] + ([5] + ([12] + ([13] + [14]))), And(NotType("2"), And(NotType("5"), rest)));
    assert EXCLUDED_TYPES == [1] + ([2] + ([5] + ([12] + ([13] + [14]))));
  }

  /** The fixed clauses ask for the game fields, leave out the six release types, and limit
      the answer to as many games as the caller said. */
  lemma FixedClausesRead(limit: nat) returns (digits: string)
    ensures FixedClauses(limit) ==
      "; " + GAME_FIELDS + " where "
      + And(NotType("1"), And(NotType("2"), And(NotType("5"), And(NotType("12"), And(NotType("13"), NotType("14"))))))
      + "; limit " + digits + ";"
    ensures GAME_FIELDS ==
      "fields id,name,cover.image_id,first_release_date,game_type.type,parent_game,summary,"
      + "genres.id,genres.name,themes.id,themes.name,game_modes.id,game_modes.name;"
    ensures digits != "" && Atoi(digits) == limit
    ensures forall i :: 0 <= i < |digits| ==> '0' <= digits[i] <= '9'
  {
    ExcludedTypesRead();
    ItoaReads(limit);
    digits := Itoa(limit);
  }

  const OPENING: string := "search \""

  method SearchBody(query: string, limit: nat) returns (body: string)
    ensures OPENING <= body
    ensures Lex(body[|OPENING|..]) == Some((Meant(query), FixedClauses(limit)))
  {
    var term := EscapeSearchTerm(query);
    body := OPENING + term + "\"" + FixedClauses(limit);
    assert body == OPENING + (term + "\"" + FixedClauses(limit));
    assert body[|OPENING|..] == term + "\"" + FixedClauses(limit);
    LexesBack(query, FixedClauses(limit));
  }
}
