/**
 canonicalJSONString of api/executor_locator.go: Go's JSON string encoder, followed by two replacements that are meant
 to put U+2028 and U+2029 back unescaped. The replacements also hit a backslash that the string itself holds.
 */
module CanonicalText {
  import opened CanonicalJson
  import opened Collections
  import opened JsonPointer
  import opened JsonValues
  import opened Utf16
  import opened Wrappers

  const BACKSLASH: string := "\\"
  const QUOTE: string := "\""

  /** The two separators, by the last digit of their code. */
  function Separator(digit: char): char {
    if digit == '8' then '\U{2028}' else '\U{2029}'
  }

  function DigitOf(c: char): char {
    if c == '\U{2028}' then '8' else '9'
  }

  predicate IsSeparator(c: char) {
    c == '\U{2028}' || c == '\U{2029}'
  }

  /** The escape a separator is encoded as: a backslash and this. */
  function Spelling(digit: char): string {
    "u202" + [digit]
  }

  function Hex(n: int): char
    requires 0 <= n < 16
  {
    if n < 10 then '0' + n as char else 'a' + (n - 10) as char
  }

  /** The escapes of one letter. */
  function ShortEscape(c: char): char {
    match c
    case '\n' => 'n'
    case '\r' => 'r'
    case '\t' => 't'
    case '\U{8}' => 'b'
    case '\U{C}' => 'f'
    case _ => c
  }

  /** encoding/json on one character that is no separator. */
  function EscapeChar(c: char): string {
    if c == '"' || c == '\\' then BACKSLASH + [c]
    else if ShortEscape(c) != c then BACKSLASH + [ShortEscape(c)]
    else if c < ' ' then BACKSLASH + "u00" + [Hex(c as int / 16), Hex(c as int % 16)]
    else [c]
  }

  /** The string spells out an escape of one of these separators at its start. */
  predicate Spells(s: string, done: set<char>) {
    |s| >= 6 && s[0] == '\\' && s[1..5] == "u202" && s[5] in done
  }

  /** The encoded string behind its opening quote, once the separators in done have been put back. */
  function Encoded(s: string, done: set<char>): string
    decreases |s|
  {
    if s == "" then QUOTE
    else if Spells(s, done) then BACKSLASH + [Separator(s[5])] + Encoded(s[6..], done)
    else if IsSeparator(s[0]) then
      (if DigitOf(s[0]) in done then [s[0]] else BACKSLASH + Spelling(DigitOf(s[0]))) + Encoded(s[1..], done)
    else EscapeChar(s[0]) + Encoded(s[1..], done)
  }

  /** One of the two replacements. */
  function Put(encoded: string, digit: char): string {
    ReplaceAll(encoded, BACKSLASH + Spelling(digit), [Separator(digit)])
  }

  /** canonicalJSONString. */
  function CanonicalString(s: string): string {
    Put(Put(QUOTE + Encoded(s, {}), '8'), '9')
  }

  /** What section 3.2.2.2 of RFC 8785 asks for: the separators as they are, everything else escaped as before. */
  function Required(s: string): string {
    if s == "" then QUOTE
    else (if IsSeparator(s[0]) then [s[0]] else EscapeChar(s[0])) + Required(s[1..])
  }

  // ----- one replacement -----------------------------------------------------------------------

  lemma {:induction false} SkipsOne(c: char, x: string, digit: char)
    requires c != '\\'
    ensures Put([c] + x, digit) == [c] + Put(x, digit)
  {
    var needle, s := BACKSLASH + Spelling(digit), [c] + x;
    assert s[1..] == x;
    assert |s| >= 6 ==> s[..6][0] != needle[0];
  }

  /** What holds no backslash is passed over. */
  lemma {:induction false} SkipsPlain(p: string, x: string, digit: char)
    requires '\\' !in p
    ensures Put(p + x, digit) == p + Put(x, digit)
    decreases |p|
  {
    hide Put;
    if p == "" {
      assert p + x == x && p + Put(x, digit) == Put(x, digit);
    } else {
      SkipsPlain(p[1..], x, digit);
      SkipsOne(p[0], p[1..] + x, digit);
      assert p + x == [p[0]] + (p[1..] + x);
    }
  }

  /** A backslash that does not start the needle is passed over. */
  lemma {:induction false} SkipsBackslash(x: string, digit: char)
    requires !(Spelling(digit) <= x)
    ensures Put(BACKSLASH + x, digit)
         == BACKSLASH + Put(x, digit)
  {
    var s := BACKSLASH + x;
    assert s[1..] == x;
    assert |s| >= 6 ==> s[..6][1..] == x[..5];
    assert (BACKSLASH + Spelling(digit))[1..] == Spelling(digit);
  }

  lemma {:induction false} Replaces(x: string, digit: char)
    ensures Put(BACKSLASH + Spelling(digit) + x, digit)
         == [Separator(digit)] + Put(x, digit)
  {
    var s := BACKSLASH + Spelling(digit) + x;
    assert s[..6] == BACKSLASH + Spelling(digit) && s[6..] == x;
  }

  /** A letter that is its own encoding shows up first in the encoded string only where the string has it. */
  lemma {:induction false} ShowsOne(s: string, done: set<char>, c: char)
    requires c in "u2089"
    ensures |Encoded(s, done)| > 0 && (Encoded(s, done)[0] == c <==> s != "" && s[0] == c)
    ensures s != "" && s[0] == c ==> Encoded(s, done) == [c] + Encoded(s[1..], done)
  {
  }

  lemma {:induction false} ShowsItself(s: string, done: set<char>, w: string)
    requires forall i :: 0 <= i < |w| ==> w[i] in "u2089"
    ensures w <= Encoded(s, done) <==> w <= s
    ensures w <= s ==> Encoded(s, done) == w + Encoded(s[|w|..], done)
    decreases |w|
  {
    hide Encoded;
    if w == "" {
      assert s[0..] == s && w + Encoded(s, done) == Encoded(s, done);
    } else {
      ShowsOne(s, done, w[0]);
      if s != "" && s[0] == w[0] {
        ShowsItself(s[1..], done, w[1..]);
        assert w == [w[0]] + w[1..] && s == [s[0]] + s[1..];
        assert w <= s <==> w[1..] <= s[1..];
        assert w <= Encoded(s, done) <==> w[1..] <= Encoded(s[1..], done) by {
          assert Encoded(s, done)[1..] == Encoded(s[1..], done);
        }
        if w <= s {
          assert s[1..][|w| - 1..] == s[|w|..];
        }
      }
    }
  }

  /** Replacing one more separator puts it back, and mangles every place where the string spells its escape. */
  lemma {:induction false} PutsBack(s: string, done: set<char>, digit: char)
    requires digit !in done && digit in "89"
    ensures Put(Encoded(s, done), digit) == Encoded(s, done + {digit})
    decreases |s|
  {
    if s == "" {
      SkipsPlain(QUOTE, "", digit);
      assert QUOTE + "" == QUOTE;
    } else if Spells(s, done) {
      PutsBack(s[6..], done, digit);
      MangledStays(s, done, digit);
    } else if s[0] == '\\' {
      PutsBackBackslash(s, done, digit);
    } else if IsSeparator(s[0]) {
      PutsBack(s[1..], done, digit);
      SeparatorBack(s, done, digit);
    } else {
      PutsBack(s[1..], done, digit);
      EscapeStays(s[0], Encoded(s[1..], done), digit);
    }
  }

  lemma {:induction false} MangledStays(s: string, done: set<char>, digit: char)
    requires digit !in done && Spells(s, done)
    ensures Put(Encoded(s, done), digit)
         == BACKSLASH + [Separator(s[5])] + Put(Encoded(s[6..], done), digit)
  {
    hide Put;
    var x := Encoded(s[6..], done);
    var sep := [Separator(s[5])];
    assert Encoded(s, done) == BACKSLASH + (sep + x);
    assert |sep + x| >= 5 ==> (sep + x)[..5][0] != Spelling(digit)[0];
    SkipsBackslash(sep + x, digit);
    SkipsPlain(sep, x, digit);
  }

  lemma {:induction false} SeparatorBack(s: string, done: set<char>, digit: char)
    requires digit !in done && digit in "89" && s != "" && IsSeparator(s[0])
    requires Put(Encoded(s[1..], done), digit) == Encoded(s[1..], done + {digit})
    ensures Put(Encoded(s, done), digit) == Encoded(s, done + {digit})
  {
    hide Put;
    var x := Encoded(s[1..], done);
    var own := DigitOf(s[0]);
    if own in done {
      SkipsPlain([s[0]], x, digit);
    } else if own == digit {
      Replaces(x, digit);
    } else {
      OtherStays(own, x, digit);
    }
  }

  /** The escape of the other separator is not touched. */
  lemma {:induction false} OtherStays(own: char, x: string, digit: char)
    requires own != digit && own in "89"
    ensures Put(BACKSLASH + Spelling(own) + x, digit) == BACKSLASH + Spelling(own) + Put(x, digit)
  {
    hide Put;
    var spelled := Spelling(own);
    assert BACKSLASH + spelled + x == BACKSLASH + (spelled + x);
    assert (spelled + x)[..5] == spelled && spelled[4] != Spelling(digit)[4];
    SkipsBackslash(spelled + x, digit);
    SkipsPlain(spelled, x, digit);
  }

  /** The escapes of other characters are not touched. */
  lemma {:induction false} EscapeStays(c: char, x: string, digit: char)
    requires c != '\\' && !IsSeparator(c)
    ensures Put(EscapeChar(c) + x, digit)
         == EscapeChar(c) + Put(x, digit)
  {
    hide Put;
    var out := EscapeChar(c);
    if out[0] == '\\' {
      var tail := out[1..];
      assert out == BACKSLASH + tail && out + x == BACKSLASH + (tail + x);
      assert |tail + x| >= 5 ==> (tail + x)[..5][0] == tail[0];
      assert |tail| > 1 ==> (tail + x)[..5][1] == '0' && Spelling(digit)[1] == '2';
      SkipsBackslash(tail + x, digit);
      SkipsPlain(tail, x, digit);
    } else {
      SkipsPlain(out, x, digit);
    }
  }

  lemma {:induction false} EncodedBackslash(s: string, done: set<char>)
    requires s != "" && s[0] == '\\' && !Spells(s, done)
    ensures Encoded(s, done) == BACKSLASH + (BACKSLASH + Encoded(s[1..], done))
  {
  }

  lemma {:induction false} SpellsMeans(s: string, digit: char)
    requires s != "" && s[0] == '\\'
    ensures Spelling(digit) <= s[1..] <==> |s| >= 6 && s[1..5] == "u202" && s[5] == digit
    ensures |s| >= 6 ==> s[1..][5..] == s[6..]
  {
    if |s| >= 6 {
      assert s[1..][..5] == s[1..5] + [s[5]];
      assert s[1..][..5][..4] == s[1..5];
    }
  }

  lemma {:induction false} PutsBackBackslash(s: string, done: set<char>, digit: char)
    requires digit !in done && digit in "89" && s != "" && s[0] == '\\' && !Spells(s, done)
    ensures Put(Encoded(s, done), digit) == Encoded(s, done + {digit})
    decreases |s|, 0
  {
    hide Put, Encoded;
    var rest := Encoded(s[1..], done);
    EncodedBackslash(s, done);
    assert (BACKSLASH + rest)[0] != Spelling(digit)[0];
    SkipsBackslash(BACKSLASH + rest, digit);
    ShowsItself(s[1..], done, Spelling(digit));
    SpellsMeans(s, digit);
    if Spelling(digit) <= s[1..] {
      var x := Encoded(s[6..], done);
      assert BACKSLASH + rest == BACKSLASH + Spelling(digit) + x;
      Replaces(x, digit);
      PutsBack(s[6..], done, digit);
      NowMangled(s, done, digit);
    } else {
      SkipsBackslash(rest, digit);
      PutsBack(s[1..], done, digit);
      EncodedBackslash(s, done + {digit});
    }
  }

  lemma {:induction false} NowMangled(s: string, done: set<char>, digit: char)
    requires Spells(s, done + {digit})
    ensures Encoded(s, done + {digit}) == BACKSLASH + [Separator(s[5])] + Encoded(s[6..], done + {digit})
  {
  }

  /** The whole function in one formula. */
  lemma {:induction false} CanonicalStringIs(s: string)
    ensures CanonicalString(s) == QUOTE + Encoded(s, {'8', '9'})
  {
    hide Encoded, Put;
    SkipsPlain(QUOTE, Encoded(s, {}), '8');
    PutsBack(s, {}, '8');
    assert {} + {'8'} == {'8'} && {'8'} + {'9'} == {'8', '9'};
    SkipsPlain(QUOTE, Encoded(s, {'8'}), '9');
    PutsBack(s, {'8'}, '9');
  }

  // ----- where it is what the standard requires ------------------------------------------------

  const BOTH: set<char> := {'8', '9'}

  /** Somewhere in the string a backslash is followed by u2028 or u2029. */
  ghost predicate SpellsSomewhere(s: string) {
    exists i :: 0 <= i < |s| && Spells(s[i..], BOTH)
  }

  lemma {:induction false} SpellsLater(s: string)
    requires s != ""
    ensures SpellsSomewhere(s) <==> Spells(s, BOTH) || SpellsSomewhere(s[1..])
  {
    assert s[0..] == s;
    if i :| 0 <= i < |s| && Spells(s[i..], BOTH) && i > 0 {
      assert s[1..][i - 1..] == s[i..];
    }
    if i :| 0 <= i < |s[1..]| && Spells(s[1..][i..], BOTH) {
      assert s[1..][i..] == s[i + 1..];
    }
  }

  lemma {:induction false} RequiredGrows(s: string, n: nat)
    requires n <= |s|
    ensures |Required(s)| >= n + |Required(s[n..])|
    decreases n
  {
    if n == 0 {
      assert s[0..] == s;
    } else {
      RequiredGrows(s[1..], n - 1);
      assert s[1..][n - 1..] == s[n..];
    }
  }

  /** Every spelled-out separator makes the output shorter than required; where there is none, the output is right. */
  lemma {:induction false} ShorterWhereSpelled(s: string)
    ensures |Encoded(s, BOTH)| <= |Required(s)|
    ensures SpellsSomewhere(s) ==> |Encoded(s, BOTH)| < |Required(s)|
    ensures !SpellsSomewhere(s) ==> Encoded(s, BOTH) == Required(s)
    decreases |s|
  {
    if s != "" {
      SpellsLater(s);
      hide SpellsSomewhere;
      if Spells(s, BOTH) {
        ShorterWhereSpelled(s[6..]);
        RequiredGrows(s, 6);
      } else {
        ShorterWhereSpelled(s[1..]);
        assert IsSeparator(s[0]) ==> DigitOf(s[0]) in BOTH;
      }
    }
  }

  /** The string is written as section 3.2.2.2 of RFC 8785 requires exactly when it nowhere spells out the escape of one
      of the two separators; a string that does loses characters and its output is not even JSON. */
  lemma {:induction false} CanonicalUnlessSpelled(s: string)
    ensures CanonicalString(s) == QUOTE + Required(s) <==> !SpellsSomewhere(s)
  {
    hide Encoded, Required, SpellsSomewhere, CanonicalString;
    CanonicalStringIs(s);
    ShorterWhereSpelled(s);
    assert |QUOTE + Required(s)| == 1 + |Required(s)| && |QUOTE + Encoded(s, BOTH)| == 1 + |Encoded(s, BOTH)|;
  }

  /** A string of six characters that is written as four: a quote, a backslash, U+2028 and a quote. */
  lemma {:induction false} SpelledIsMangled()
    ensures CanonicalString("\\u2028") == "\"\\\U{2028}\""
  {
    var s := "\\u2028";
    CanonicalStringIs(s);
    assert s[1..5] == "u202" && s[6..] == "";
    assert Spells(s, BOTH);
  }

  // ----- but it always determines the string ---------------------------------------------------

  /** The first piece of the output of a non-empty string, and how many characters it stands for. */
  function Piece(s: string): string
    requires s != ""
  {
    if Spells(s, BOTH) then BACKSLASH + [Separator(s[5])]
    else if IsSeparator(s[0]) then [s[0]]
    else EscapeChar(s[0])
  }

  function Length(s: string): nat
    requires s != ""
    ensures Length(s) <= |s|
  {
    if Spells(s, BOTH) then 6 else 1
  }

  lemma {:induction false} StartsWithPiece(s: string)
    requires s != ""
    ensures Encoded(s, BOTH) == Piece(s) + Encoded(s[Length(s)..], BOTH)
    ensures Piece(s)[0] != '"'
  {
    assert IsSeparator(s[0]) ==> DigitOf(s[0]) in BOTH;
  }

  /** One or two characters tell how long a piece is. */
  lemma {:induction false} PieceEnds(s: string, t: string, x: string, y: string)
    requires s != "" && t != "" && Piece(s) + x == Piece(t) + y
    ensures Piece(s) == Piece(t) && x == y
  {
    var p, q := Piece(s), Piece(t);
    assert (p + x)[0] == p[0] && (q + y)[0] == q[0];
    PieceSize(s);
    PieceSize(t);
    if |p| > 1 {
      assert (p + x)[1] == p[1] && (q + y)[1] == q[1];
    }
    assert |p| == |q|;
    assert (p + x)[..|p|] == p && (q + y)[..|q|] == q && (p + x)[|p|..] == x && (q + y)[|q|..] == y;
  }

  lemma {:induction false} PieceSize(s: string)
    requires s != ""
    ensures var p := Piece(s);
            |p| > 0 && |p| == if p[0] != '\\' then 1 else if |p| > 1 && p[1] == 'u' then 6 else 2
  {
  }

  lemma {:induction false} EscapeIsInjective(c: char, d: char)
    requires EscapeChar(c) == EscapeChar(d)
    ensures c == d
  {
    if |EscapeChar(c)| == 6 {
      assert EscapeChar(c)[4] == Hex(c as int / 16) && EscapeChar(c)[5] == Hex(c as int % 16);
      assert EscapeChar(d)[4] == Hex(d as int / 16) && EscapeChar(d)[5] == Hex(d as int % 16);
    } else if |EscapeChar(c)| == 2 {
      assert EscapeChar(c)[1] == EscapeChar(d)[1];
    } else {
      assert EscapeChar(c)[0] == EscapeChar(d)[0];
    }
  }

  /** Equal pieces stand for equal characters. */
  lemma {:induction false} PieceMeans(s: string, t: string)
    requires s != "" && t != "" && Piece(s) == Piece(t)
    ensures Length(s) == Length(t) && s[..Length(s)] == t[..Length(t)]
  {
    if Spells(s, BOTH) || Spells(t, BOTH) {
      assert Piece(s)[1] == Piece(t)[1];
      assert s[..6] == [s[0]] + s[1..5] + [s[5]];
      assert t[..6] == [t[0]] + t[1..5] + [t[5]];
    } else {
      if !IsSeparator(s[0]) && !IsSeparator(t[0]) {
        EscapeIsInjective(s[0], t[0]);
      }
      assert s[0] == t[0];
    }
  }

  lemma {:induction false} OnePiece(s: string, t: string, x: string, y: string)
    requires s != "" && t != "" && Encoded(s, BOTH) + x == Encoded(t, BOTH) + y
    ensures Length(s) == Length(t) && s[..Length(s)] == t[..Length(t)]
    ensures Encoded(s[Length(s)..], BOTH) + x == Encoded(t[Length(t)..], BOTH) + y
  {
    StartsWithPiece(s);
    StartsWithPiece(t);
    hide Encoded, Piece, Length;
    var restS, restT := Encoded(s[Length(s)..], BOTH), Encoded(t[Length(t)..], BOTH);
    Regroup2(Piece(s), restS, x);
    Regroup2(Piece(t), restT, y);
    PieceEnds(s, t, restS + x, restT + y);
    PieceMeans(s, t);
  }

  lemma {:induction false} LengthIsPositive(s: string)
    requires s != ""
    ensures Length(s) > 0
  {
  }

  lemma {:induction false} EncodedParses(s: string, t: string, x: string, y: string)
    requires Encoded(s, BOTH) + x == Encoded(t, BOTH) + y
    ensures s == t && x == y
    decreases |s|
  {
    hide Encoded;
    if s == "" || t == "" {
      EmptyParses(s, t, x, y);
    } else {
      OnePiece(s, t, x, y);
      LengthIsPositive(s);
      hide Length;
      EncodedParses(s[Length(s)..], t[Length(t)..], x, y);
      assert s == s[..Length(s)] + s[Length(s)..] && t == t[..Length(t)] + t[Length(t)..];
    }
  }

  lemma {:induction false} StartsUnquoted(s: string)
    ensures |Encoded(s, BOTH)| > 0 && (Encoded(s, BOTH)[0] == '"' <==> s == "")
  {
    if s != "" {
      StartsWithPiece(s);
      PieceSize(s);
    }
  }

  lemma {:induction false} EmptyParses(s: string, t: string, x: string, y: string)
    requires Encoded(s, BOTH) + x == Encoded(t, BOTH) + y && (s == "" || t == "")
    ensures s == t && x == y
  {
    StartsUnquoted(s);
    StartsUnquoted(t);
    assert (Encoded(s, BOTH) + x)[0] == Encoded(s, BOTH)[0] && (Encoded(t, BOTH) + y)[0] == Encoded(t, BOTH)[0];
    assert (QUOTE + x)[1..] == x && (QUOTE + y)[1..] == y;
  }

  /** Mangled or not, the output always determines the string and where it ends. */
  lemma {:induction false} CanonicalStringDelimits(s: string, t: string, x: string, y: string)
    requires CanonicalString(s) + x == CanonicalString(t) + y
    ensures s == t && x == y
  {
    hide Encoded, CanonicalString;
    CanonicalStringIs(s);
    CanonicalStringIs(t);
    assert (CanonicalString(s) + x)[1..] == Encoded(s, BOTH) + x;
    assert (CanonicalString(t) + y)[1..] == Encoded(t, BOTH) + y;
    EncodedParses(s, t, x, y);
  }

  // ----- and a JSON reader gets it back --------------------------------------------------------

  function HexValue(c: char): (value: Option<int>)
    ensures value.Some? ==> 0 <= value.value < 16
  {
    if '0' <= c <= '9' then Some(c as int - '0' as int)
    else if 'a' <= c <= 'f' then Some(c as int - 'a' as int + 10)
    else if 'A' <= c <= 'F' then Some(c as int - 'A' as int + 10)
    else None
  }

  /** The code of a \u escape, behind the u. */
  function CodeAt(s: string): Option<int>
    requires |s| >= 4
  {
    if HexValue(s[0]).None? || HexValue(s[1]).None? || HexValue(s[2]).None? || HexValue(s[3]).None? then None
    else
      var high := HexValue(s[0]).value * 16 + HexValue(s[1]).value;
      Some((high * 16 + HexValue(s[2]).value) * 16 + HexValue(s[3]).value)
  }

  /** The character of a \u escape that is no surrogate. */
  function CharAt(s: string): Option<char>
    requires |s| >= 4
  {
    match CodeAt(s)
    case None => None
    case Some(code) => if 0 <= code < 0xD800 || 0xE000 <= code < 0x10000 then Some(code as char) else None
  }

  /** The characters that a backslash and one letter stand for in JSON. */
  function Unescaped(c: char): Option<char> {
    match c
    case '"' => Some('"')
    case '\\' => Some('\\')
    case '/' => Some('/')
    case 'b' => Some('\U{8}')
    case 'f' => Some('\U{C}')
    case 'n' => Some('\n')
    case 'r' => Some('\r')
    case 't' => Some('\t')
    case _ => None
  }

  /** A JSON string read from behind its opening quote to the end of the text, as section 7 of RFC 8259 has it.
      Escapes of surrogates, which are never written, are not read. */
  function ReadString(s: string): Option<string>
    decreases |s|
  {
    if s == "" || s[0] < ' ' then None
    else if s[0] == '"' then (if |s| == 1 then Some("") else None)
    else if s[0] != '\\' then Prepend(s[0], ReadString(s[1..]))
    else if |s| < 2 then None
    else if s[1] == 'u' then
      (if |s| < 6 || CharAt(s[2..6]).None? then None else Prepend(CharAt(s[2..6]).value, ReadString(s[6..])))
    else if Unescaped(s[1]).None? then None
    else Prepend(Unescaped(s[1]).value, ReadString(s[2..]))
  }

  function Prepend(c: char, rest: Option<string>): Option<string> {
    match rest
    case None => None
    case Some(text) => Some([c] + text)
  }

  lemma {:induction false} ReadsControl(c: char, rest: string)
    requires c < ' ' && ShortEscape(c) == c
    ensures ReadString(EscapeChar(c) + rest) == Prepend(c, ReadString(rest))
  {
    var s := EscapeChar(c) + rest;
    var high, low := c as int / 16, c as int % 16;
    assert s[..6] == EscapeChar(c) && s[6..] == rest && s[0] == '\\' && s[1] == 'u';
    assert s[2..6] == "00" + [Hex(high), Hex(low)];
    assert HexValue(Hex(high)) == Some(high) && HexValue(Hex(low)) == Some(low) && HexValue('0') == Some(0);
    assert CodeAt(s[2..6]) == Some(c as int);
  }

  /** Each character is read back from the way it is written. */
  lemma {:induction false} ReadsChar(c: char, rest: string)
    ensures ReadString((if IsSeparator(c) then [c] else EscapeChar(c)) + rest) == Prepend(c, ReadString(rest))
  {
    var piece := if IsSeparator(c) then [c] else EscapeChar(c);
    var s := piece + rest;
    if c < ' ' && ShortEscape(c) == c {
      ReadsControl(c, rest);
    } else if |piece| == 1 {
      assert s[0] == c && s[1..] == rest;
    } else {
      assert s[0] == '\\' && s[1] == piece[1] && s[2..] == rest;
    }
  }

  /** What is required of a string is read back as that string. */
  lemma {:induction false} RequiredIsRead(s: string)
    ensures ReadString(Required(s)) == Some(s)
    decreases |s|
  {
    if s != "" {
      RequiredIsRead(s[1..]);
      ReadsChar(s[0], Required(s[1..]));
      assert s == [s[0]] + s[1..];
    }
  }

  lemma {:induction false} EncodedIsRead(s: string)
    ensures ReadString(Encoded(s, BOTH)) == if SpellsSomewhere(s) then None else Some(s)
    decreases |s|
  {
    if s != "" {
      SpellsLater(s);
      hide SpellsSomewhere;
      if Spells(s, BOTH) {
        var text := Encoded(s, BOTH);
        assert text[0] == '\\' && IsSeparator(text[1]);
      } else {
        EncodedIsRead(s[1..]);
        ReadsChar(s[0], Encoded(s[1..], BOTH));
        assert IsSeparator(s[0]) ==> DigitOf(s[0]) in BOTH;
        assert s == [s[0]] + s[1..];
      }
    } else {
      assert !SpellsSomewhere(s);
    }
  }

  /** A JSON reader gets back exactly the string that was written, for every string that nowhere spells out the escape
      of a separator; and it rejects what is written for every other one. */
  lemma {:induction false} CanonicalStringIsRead(s: string)
    ensures |CanonicalString(s)| > 0 && CanonicalString(s)[0] == '"'
    ensures ReadString(CanonicalString(s)[1..]) == if SpellsSomewhere(s) then None else Some(s)
  {
    hide Encoded, SpellsSomewhere, CanonicalString, ReadString;
    CanonicalStringIs(s);
    EncodedIsRead(s);
    assert (QUOTE + Encoded(s, BOTH))[1..] == Encoded(s, BOTH);
  }

  lemma {:induction false} TextIsFaithful(e: Encoders)
    requires e.text == CanonicalString
    ensures FaithfulText(e)
  {
    hide CanonicalString;
    forall s ensures |e.text(s)| > 0 && e.text(s)[0] == '"' {
      CanonicalStringIs(s);
    }
    forall s, t, x, y | e.text(s) + x == e.text(t) + y ensures s == t && x == y {
      CanonicalStringDelimits(s, t, x, y);
    }
  }

  /** So with this string encoder the writer is injective on documents, whatever their strings hold; only of the
      numerals something is assumed. */
  lemma {:induction false} WriterIsInjective(number: string -> Option<real>, digits: real -> string, a: Json, b: Json)
    requires var e := Encoders(CanonicalString, number, digits);
             FaithfulNumbers(e) && Writable(e, a) && Writable(e, b)
    ensures var e := Encoders(CanonicalString, number, digits);
            Canonical(e, a) == Canonical(e, b) <==> Equivalent(e, a, b)
  {
    hide CanonicalString, Canonical, Equivalent, Writable;
    var e := Encoders(CanonicalString, number, digits);
    TextIsFaithful(e);
    CanonicalIsInjective(e, a, b);
  }

  // ----- the assumptions can be met ------------------------------------------------------------

  predicate IsDigits(s: string) {
    |s| > 0 && forall i :: 0 <= i < |s| ==> '0' <= s[i] <= '9'
  }

  function Value(digits: string): nat
    requires forall i :: 0 <= i < |digits| ==> '0' <= digits[i] <= '9'
    decreases |digits|
  {
    if digits == "" then 0
    else 10 * Value(digits[..|digits| - 1]) + (digits[|digits| - 1] as int - '0' as int)
  }

  function Decimal(n: nat): (digits: string)
    ensures IsDigits(digits)
  {
    var last := ['0' + (n % 10) as char];
    if n < 10 then last else Decimal(n / 10) + last
  }

  lemma {:induction false} DecimalRoundTrip(n: nat)
    ensures Value(Decimal(n)) == n
  {
    var digits := Decimal(n);
    if n < 10 {
      assert digits[..0] == "";
    } else {
      DecimalRoundTrip(n / 10);
      assert digits[..|digits| - 1] == Decimal(n / 10);
    }
  }

  /** Integer numerals, with or without a sign and leading zeros. */
  function IntegerAt(numeral: string): Option<int> {
    if IsDigits(numeral) then Some(Value(numeral))
    else if |numeral| > 0 && numeral[0] == '-' && IsDigits(numeral[1..]) then Some(-(Value(numeral[1..]) as int))
    else None
  }

  function IntegerOf(numeral: string): Option<real> {
    match IntegerAt(numeral)
    case None => None
    case Some(n) => Some(n as real)
  }

  function Signed(n: int): string {
    if n < 0 then "-" + Decimal(-n) else Decimal(n)
  }

  function IntegerDigits(v: real): string {
    Signed(v.Floor)
  }

  lemma {:induction false} SignedDetermines(m: int, n: int)
    ensures IsNumeral(Signed(m))
    ensures Signed(m) == Signed(n) ==> m == n
  {
    hide Decimal;
    DecimalRoundTrip(if m < 0 then -m else m);
    DecimalRoundTrip(if n < 0 then -n else n);
    assert m < 0 ==> Signed(m)[0] == '-' && Signed(m)[1..] == Decimal(-m);
    assert n < 0 ==> Signed(n)[0] == '-' && Signed(n)[1..] == Decimal(-n);
    assert m >= 0 ==> Signed(m)[0] != '-';
    assert n >= 0 ==> Signed(n)[0] != '-';
  }

  lemma {:induction false} IntegerDigitsDetermine(s: string, t: string)
    requires IntegerOf(s).Some? && IntegerOf(t).Some?
    ensures IsNumeral(IntegerDigits(IntegerOf(s).value))
    ensures IntegerDigits(IntegerOf(s).value) == IntegerDigits(IntegerOf(t).value) ==> IntegerOf(s) == IntegerOf(t)
  {
    hide IntegerAt, Signed, IsNumeral;
    SignedDetermines(IntegerAt(s).value, IntegerAt(t).value);
    assert (IntegerAt(s).value as real).Floor == IntegerAt(s).value;
    assert (IntegerAt(t).value as real).Floor == IntegerAt(t).value;
  }

  /** Encoders that meet everything that is assumed of them: this string encoder, and integers in decimal. */
  const INTEGER_ENCODERS := Encoders(CanonicalString, IntegerOf, IntegerDigits)

  lemma {:induction false} FaithfulEncodersExist()
    ensures Faithful(INTEGER_ENCODERS)
    ensures Writable(INTEGER_ENCODERS, Number("-007")) && Writable(INTEGER_ENCODERS, Number("12"))
  {
    hide CanonicalString, IntegerOf, IntegerDigits;
    var e := INTEGER_ENCODERS;
    TextIsFaithful(e);
    forall s, t | e.number(s).Some? && e.number(t).Some?
      ensures IsNumeral(e.digits(e.number(s).value))
      ensures e.digits(e.number(s).value) == e.digits(e.number(t).value) ==> e.number(s) == e.number(t)
    {
      IntegerDigitsDetermine(s, t);
    }
    SomeIntegers();
  }

  lemma {:induction false} SomeIntegers()
    ensures IntegerOf("-007").Some? && IntegerOf("12").Some?
  {
    assert "-007"[1..] == "007";
  }

  // ----- one document, letter by letter --------------------------------------------------------

  lemma {:induction false} PlainText(s: string)
    requires forall i :: 0 <= i < |s| ==> 'a' <= s[i] <= 'z'
    ensures CanonicalString(s) == QUOTE + s + QUOTE
  {
    CanonicalStringIs(s);
    PlainEncoded(s);
    hide CanonicalString, Encoded;
  }

  lemma {:induction false} PlainEncoded(s: string)
    requires forall i :: 0 <= i < |s| ==> 'a' <= s[i] <= 'z'
    ensures Encoded(s, BOTH) == s + QUOTE
    decreases |s|
  {
    if s != "" {
      PlainEncoded(s[1..]);
      assert s == [s[0]] + s[1..];
    }
  }

  const SAMPLE := map["b" := Array([Bool(true), Null, Number("-007")]), "a" := Bool(false)]

  lemma {:induction false} SampleKeys()
    ensures SortedKeys(SAMPLE.Keys) == ["a", "b"]
  {
    var a, b := Encode("a"), Encode("b");
    assert a[0] == 'a' as int && b[0] == 'b' as int && PartsAt(a, b, 0);
    assert SAMPLE.Keys == {"a", "b"};
    IncreasingIsUnique(SortedKeys(SAMPLE.Keys), ["a", "b"]);
  }

  lemma {:induction false} SampleNumber()
    ensures IntegerOf("-007") == Some(-7.0) && IntegerDigits(-7.0) == "-7"
  {
    assert "-007"[1..] == "007" && !IsDigits("-007") && IsDigits("007");
    assert "007"[..2] == "00" && "007"[..2][..1] == "0" && "007"[..2][..1][..0] == "";
    assert Value("") == 0 && Value("0") == 0 && Value("00") == 0 && Value("007") == 7;
    assert IntegerAt("-007") == Some(-7);
    assert (-7.0).Floor == -7 && Decimal(7) == "7";
  }

  lemma {:induction false} SampleItems()
    ensures Writable(INTEGER_ENCODERS, SAMPLE["b"])
    ensures Items(INTEGER_ENCODERS, SAMPLE["b"], 0) == "true,null,-7]"
  {
    SampleNumber();
    var e, v := INTEGER_ENCODERS, SAMPLE["b"];
    assert v.items[0] == Bool(true) && v.items[1] == Null && v.items[2] == Number("-007");
    hide IntegerOf, IntegerDigits, CanonicalString;
    assert Items(e, v, 3) == "]";
    assert Items(e, v, 2) == ",-7]";
    assert Items(e, v, 1) == ",null,-7]";
  }

  lemma {:induction false} TwoMembers(e: Encoders, v: Json, first: string, second: string)
    requires v.Object? && Writable(e, v) && first in v.fields && second in v.fields
    ensures Writable(e, v.fields[first]) && Writable(e, v.fields[second])
    ensures Members(e, v, [first, second], 0)
         == e.text(first) + ":" + Canonical(e, v.fields[first])
            + ("," + e.text(second) + ":" + Canonical(e, v.fields[second]) + "}")
  {
    var keys := [first, second];
    hide Canonical;
    NoMembersLeft(e, v, keys);
    assert Members(e, v, keys, 1) == "," + e.text(second) + ":" + Canonical(e, v.fields[second]) + "}";
    var x := e.text(first) + ":" + Canonical(e, v.fields[first]);
    assert "" + e.text(first) == e.text(first);
    assert Members(e, v, keys, 0) == "" + e.text(first) + ":" + Canonical(e, v.fields[first]) + Members(e, v, keys, 1);
  }

  /** What the writer makes of one document with every kind of value: sorted keys, no spaces, numbers respelled. */
  lemma {:induction false} SampleIsWritten()
    ensures Writable(INTEGER_ENCODERS, Object(SAMPLE))
    ensures Canonical(INTEGER_ENCODERS, Object(SAMPLE))
         == "{" + ("\"" + "a" + "\"" + ":" + "false"
                   + ("," + ("\"" + "b" + "\"") + ":" + ("[" + "true,null,-7]") + "}"))
  {
    var e, v := INTEGER_ENCODERS, Object(SAMPLE);
    SampleKeys();
    SampleItems();
    PlainText("a");
    PlainText("b");
    hide CanonicalString, Items, Members, IntegerOf, IntegerDigits;
    assert SAMPLE["a"] == Bool(false);
    assert Writable(e, v) by {
      forall k | k in v.fields ensures Writable(e, v.fields[k]) {
        assert k == "a" || k == "b";
      }
    }
    TwoMembers(e, v, "a", "b");
    assert Canonical(e, v) == "{" + Members(e, v, SortedKeys(v.fields.Keys), 0);
    assert Canonical(e, SAMPLE["a"]) == "false" && Canonical(e, SAMPLE["b"]) == "[" + "true,null,-7]";
  }
}
