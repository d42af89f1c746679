/**
 rejectDuplicateJSONKeys of api/shared_contract_catalog.go. It pulls tokens from Go's json.Decoder, whose Token and
 More methods are modelled here over a sequence of lexemes: the decoder itself checks separators and nesting with a
 small state machine, and the function under study relies on it for that.
 */
module DuplicateKeys {
  import opened Collections
  import opened Wrappers

  datatype Lexeme =
    | OpenObject | CloseObject | OpenArray | CloseArray | Colon | Comma
    | Str(text: string)
    | Scalar(spelling: string)
    | Malformed

  /** A JSON value as it stands in the text: members in order, keys possibly repeated. */
  datatype Value =
    | Leaf(lexeme: Lexeme)
    | Items(items: seq<Value>)
    | Members(members: seq<Member>)

  datatype Member = Member(key: string, value: Value)

  // ----- the lexemes of a value ----------------------------------------------------------------

  predicate WellFormed(v: Value) {
    match v
    case Leaf(lexeme) => lexeme.Str? || lexeme.Scalar?
    case Items(items) => forall i :: 0 <= i < |items| ==> WellFormed(items[i])
    case Members(members) => forall i :: 0 <= i < |members| ==> WellFormed(members[i].value)
  }

  function Lexemes(v: Value): seq<Lexeme>
    decreases v
  {
    match v
    case Leaf(lexeme) => [lexeme]
    case Items(items) => [OpenArray] + ItemLexemes(true, items)
    case Members(members) => [OpenObject] + MemberLexemes(true, members)
  }

  function Separator(atStart: bool): seq<Lexeme> {
    if atStart then [] else [Comma]
  }

  /** The items, each but the very first behind a separator, and the closing bracket. */
  function ItemLexemes(atStart: bool, items: seq<Value>): seq<Lexeme>
    decreases items
  {
    if items == [] then [CloseArray]
    else Separator(atStart) + Lexemes(items[0]) + ItemLexemes(false, items[1..])
  }

  function MemberLexemes(atStart: bool, members: seq<Member>): seq<Lexeme>
    decreases members
  {
    if members == [] then [CloseObject]
    else
      Separator(atStart) + [Str(members[0].key), Colon] + Lexemes(members[0].value) + MemberLexemes(false, members[1..])
  }

  /** Every object, at every depth, has pairwise distinct keys. */
  predicate DistinctKeys(v: Value) {
    match v
    case Leaf(_) => true
    case Items(items) => forall i :: 0 <= i < |items| ==> DistinctKeys(items[i])
    case Members(members) =>
      && (forall i, j :: 0 <= i < j < |members| ==> members[i].key != members[j].key)
      && (forall i :: 0 <= i < |members| ==> DistinctKeys(members[i].value))
  }

  ghost predicate Acceptable(ls: seq<Lexeme>) {
    exists v :: WellFormed(v) && DistinctKeys(v) && Lexemes(v) == ls
  }

  // ----- a recognizer: what is left after one acceptable value ---------------------------------

  function AfterValue(ls: seq<Lexeme>): (rest: Option<seq<Lexeme>>)
    ensures rest.Some? ==> |rest.value| < |ls|
    decreases |ls|, 0
  {
    if ls == [] then None
    else match ls[0]
         case Str(_) => Some(ls[1..])
         case Scalar(_) => Some(ls[1..])
         case OpenArray => AfterItems(true, ls[1..])
         case OpenObject => AfterMembers(true, {}, ls[1..])
         case _ => None
  }

  /** What is left after the rest of an array, from just behind the bracket or from just behind an item. */
  function AfterItems(atStart: bool, ls: seq<Lexeme>): (rest: Option<seq<Lexeme>>)
    ensures rest.Some? ==> |rest.value| < |ls|
    decreases |ls|, 1
  {
    if ls != [] && ls[0] == CloseArray then Some(ls[1..])
    else if !atStart && (ls == [] || ls[0] != Comma) then None
    else match AfterValue(if atStart then ls else ls[1..])
         case None => None
         case Some(more) => AfterItems(false, more)
  }

  function AfterMembers(atStart: bool, seen: set<string>, ls: seq<Lexeme>): (rest: Option<seq<Lexeme>>)
    ensures rest.Some? ==> |rest.value| < |ls|
    decreases |ls|, 1
  {
    if ls != [] && ls[0] == CloseObject then Some(ls[1..])
    else if !atStart && (ls == [] || ls[0] != Comma) then None
    else
      var next := if atStart then ls else ls[1..];
      if |next| < 2 || !next[0].Str? || next[0].text in seen || next[1] != Colon then None
      else match AfterValue(next[2..])
           case None => None
           case Some(more) => AfterMembers(false, seen + {next[0].text}, more)
  }

  /** Whatever the recognizer passes over is an acceptable value. */
  lemma {:induction false} SoundValue(ls: seq<Lexeme>) returns (v: Value)
    requires AfterValue(ls).Some?
    ensures WellFormed(v) && DistinctKeys(v) && ls == Lexemes(v) + AfterValue(ls).value
    decreases |ls|, 0
  {
    assert ls == [ls[0]] + ls[1..];
    if ls[0].OpenArray? {
      var items := SoundItems(true, ls[1..]);
      v := Items(items);
    } else if ls[0].OpenObject? {
      var members := SoundMembers(true, {}, ls[1..]);
      v := Members(members);
    } else {
      v := Leaf(ls[0]);
    }
  }

  lemma {:induction false} SoundItems(atStart: bool, ls: seq<Lexeme>) returns (items: seq<Value>)
    requires AfterItems(atStart, ls).Some?
    ensures forall i :: 0 <= i < |items| ==> WellFormed(items[i]) && DistinctKeys(items[i])
    ensures ls == ItemLexemes(atStart, items) + AfterItems(atStart, ls).value
    decreases |ls|, 1
  {
    assert ls == [ls[0]] + ls[1..];
    if ls[0] == CloseArray {
      items := [];
    } else {
      var next := if atStart then ls else ls[1..];
      assert ls == Separator(atStart) + next;
      var first := SoundValue(next);
      var others := SoundItems(false, AfterValue(next).value);
      items := [first] + others;
      assert items[1..] == others;
      Regroup3(Separator(atStart), Lexemes(first), ItemLexemes(false, others), AfterItems(atStart, ls).value);
    }
  }

  lemma {:induction false} SoundMembers(atStart: bool, seen: set<string>, ls: seq<Lexeme>)
    returns (members: seq<Member>)
    requires AfterMembers(atStart, seen, ls).Some?
    ensures forall i :: 0 <= i < |members| ==> WellFormed(members[i].value) && DistinctKeys(members[i].value)
    ensures forall i :: 0 <= i < |members| ==> members[i].key !in seen
    ensures forall i, j :: 0 <= i < j < |members| ==> members[i].key != members[j].key
    ensures ls == MemberLexemes(atStart, members) + AfterMembers(atStart, seen, ls).value
    decreases |ls|, 1
  {
    hide WellFormed, DistinctKeys, Lexemes;
    assert ls == [ls[0]] + ls[1..];
    if ls[0] == CloseObject {
      members := [];
    } else {
      var next := if atStart then ls else ls[1..];
      assert ls == Separator(atStart) + next;
      assert next == [next[0], next[1]] + next[2..];
      var first := SoundValue(next[2..]);
      var others := SoundMembers(false, seen + {next[0].text}, AfterValue(next[2..]).value);
      members := [Member(next[0].text, first)] + others;
      assert members[1..] == others;
      Regroup4(Separator(atStart), [next[0], next[1]], Lexemes(first), MemberLexemes(false, others),
               AfterMembers(atStart, seen, ls).value);
    }
  }

  /** A value never starts with a closing bracket or a separator. */
  lemma {:induction false} StartsValue(v: Value, rest: seq<Lexeme>)
    requires WellFormed(v)
    ensures |Lexemes(v) + rest| > 0 && !(Lexemes(v) + rest)[0].CloseArray?
  {
  }

  /** And it passes over every acceptable value, stopping right behind it. */
  lemma {:induction false} CompleteValue(v: Value, rest: seq<Lexeme>)
    requires WellFormed(v) && DistinctKeys(v)
    ensures AfterValue(Lexemes(v) + rest) == Some(rest)
    decreases v, 0
  {
    var ls := Lexemes(v) + rest;
    match v
    case Leaf(lexeme) =>
      assert ls[1..] == rest;
    case Items(items) =>
      assert ls[1..] == ItemLexemes(true, items) + rest;
      assert items[0..] == items;
      CompleteItems(v, 0, rest);
    case Members(members) =>
      assert ls[1..] == MemberLexemes(true, members) + rest;
      assert members[0..] == members;
      CompleteMembers(v, 0, {}, rest);
  }

  /** One item, or one member, of the loops. */
  lemma {:induction false} StepItems(atStart: bool, next: seq<Lexeme>, more: seq<Lexeme>)
    requires next != [] && !next[0].CloseArray? && AfterValue(next) == Some(more)
    ensures AfterItems(atStart, Separator(atStart) + next) == AfterItems(false, more)
  {
    var ls := Separator(atStart) + next;
    assert if atStart then ls == next else ls[0] == Comma && ls[1..] == next;
  }

  lemma {:induction false} StepMembers(atStart: bool, seen: set<string>, key: string, next: seq<Lexeme>,
                                       more: seq<Lexeme>)
    requires key !in seen && AfterValue(next) == Some(more)
    ensures AfterMembers(atStart, seen, Separator(atStart) + ([Str(key), Colon] + next))
            == AfterMembers(false, seen + {key}, more)
  {
    var member := [Str(key), Colon] + next;
    var ls := Separator(atStart) + member;
    assert if atStart then ls == member else ls[0] == Comma && ls[1..] == member;
    assert member[2..] == next;
  }

  lemma {:induction false} CompleteItems(v: Value, i: nat, rest: seq<Lexeme>)
    requires v.Items? && WellFormed(v) && DistinctKeys(v) && i <= |v.items|
    ensures AfterItems(i == 0, ItemLexemes(i == 0, v.items[i..]) + rest) == Some(rest)
    decreases v, 0, |v.items| - i
  {
    var left := v.items[i..];
    var ls := ItemLexemes(i == 0, left) + rest;
    if i == |v.items| {
      assert ls[1..] == rest;
    } else {
      assert left[1..] == v.items[i + 1..] && left[0] == v.items[i];
      var more := ItemLexemes(false, left[1..]) + rest;
      Regroup3(Separator(i == 0), Lexemes(left[0]), ItemLexemes(false, left[1..]), rest);
      StartsValue(left[0], more);
      CompleteValue(left[0], more);
      StepItems(i == 0, Lexemes(left[0]) + more, more);
      CompleteItems(v, i + 1, rest);
    }
  }

  lemma {:induction false} CompleteMembers(v: Value, i: nat, seen: set<string>, rest: seq<Lexeme>)
    requires v.Members? && WellFormed(v) && DistinctKeys(v) && i <= |v.members|
    requires forall k :: k in seen <==> exists j :: 0 <= j < i && v.members[j].key == k
    ensures AfterMembers(i == 0, seen, MemberLexemes(i == 0, v.members[i..]) + rest) == Some(rest)
    decreases v, 0, |v.members| - i
  {
    var left := v.members[i..];
    var ls := MemberLexemes(i == 0, left) + rest;
    if i == |v.members| {
      assert ls[1..] == rest;
    } else {
      var m := left[0];
      assert left[1..] == v.members[i + 1..] && m == v.members[i];
      var more := MemberLexemes(false, left[1..]) + rest;
      Regroup4(Separator(i == 0), [Str(m.key), Colon], Lexemes(m.value), MemberLexemes(false, left[1..]), rest);
      CompleteValue(m.value, more);
      StepMembers(i == 0, seen, m.key, Lexemes(m.value) + more, more);
      CompleteMembers(v, i + 1, seen + {m.key}, rest);
    }
  }

  /** The recognizer leaves nothing over exactly on the lexemes of one value with distinct keys at every depth. */
  lemma {:induction false} RecognizesAcceptable(ls: seq<Lexeme>)
    ensures AfterValue(ls) == Some([]) <==> Acceptable(ls)
  {
    if AfterValue(ls) == Some([]) {
      var v := SoundValue(ls);
      assert Lexemes(v) + [] == Lexemes(v);
    }
    if Acceptable(ls) {
      var v :| WellFormed(v) && DistinctKeys(v) && Lexemes(v) == ls;
      CompleteValue(v, []);
      assert Lexemes(v) + [] == ls;
    }
  }

  // ----- Go's token decoder --------------------------------------------------------------------

  datatype TokenState =
    | TopValue | ArrayStart | ArrayValue | ArrayComma
    | ObjectStart | ObjectKey | ObjectColon | ObjectValue | ObjectComma

  datatype Pulled = Token(lexeme: Lexeme) | EndOfInput | SyntaxError

  predicate ValueAllowed(state: TokenState) {
    state.TopValue? || state.ArrayStart? || state.ArrayValue? || state.ObjectValue?
  }

  function ValueEnd(state: TokenState): TokenState {
    match state
    case ArrayStart => ArrayComma
    case ArrayValue => ArrayComma
    case ObjectValue => ObjectComma
    case _ => state
  }

  /** The decoder between two calls. */
  datatype Position = Position(rest: seq<Lexeme>, state: TokenState, stack: seq<TokenState>) {
    function To(state: TokenState, stack: seq<TokenState>): Position
      requires rest != []
    {
      Position(rest[1..], state, stack)
    }

    /** Only the outermost value stands outside every array and object. */
    predicate Nested() {
      && (state.TopValue? <==> stack == [])
      && forall i :: 0 <= i < |stack| ==> (stack[i].TopValue? <==> i == 0)
    }
  }

  /** What Token returns, and where it leaves the decoder. */
  function NextToken(p: Position): (Pulled, Position)
    requires p.Nested()
    ensures NextToken(p).1.Nested()
    decreases |p.rest|
  {
    if p.rest == [] then (EndOfInput, p)
    else
      var l := p.rest[0];
      match l
      case OpenArray =>
        if ValueAllowed(p.state) then (Token(l), p.To(ArrayStart, p.stack + [p.state])) else (SyntaxError, p)
      case OpenObject =>
        if ValueAllowed(p.state) then (Token(l), p.To(ObjectStart, p.stack + [p.state])) else (SyntaxError, p)
      case CloseArray =>
        if p.state.ArrayStart? || p.state.ArrayComma?
        then (Token(l), p.To(ValueEnd(p.stack[|p.stack| - 1]), p.stack[..|p.stack| - 1])) else (SyntaxError, p)
      case CloseObject =>
        if p.state.ObjectStart? || p.state.ObjectComma?
        then (Token(l), p.To(ValueEnd(p.stack[|p.stack| - 1]), p.stack[..|p.stack| - 1])) else (SyntaxError, p)
      case Colon =>
        if p.state.ObjectColon? then NextToken(p.To(ObjectValue, p.stack)) else (SyntaxError, p)
      case Comma =>
        if p.state.ArrayComma? then NextToken(p.To(ArrayValue, p.stack))
        else if p.state.ObjectComma? then NextToken(p.To(ObjectKey, p.stack)) else (SyntaxError, p)
      case Str(_) =>
        if p.state.ObjectStart? || p.state.ObjectKey? then (Token(l), p.To(ObjectColon, p.stack))
        else if ValueAllowed(p.state) then (Token(l), p.To(ValueEnd(p.state), p.stack)) else (SyntaxError, p)
      case Scalar(_) =>
        if ValueAllowed(p.state) then (Token(l), p.To(ValueEnd(p.state), p.stack)) else (SyntaxError, p)
      case Malformed => (SyntaxError, p)
  }

  class Decoder {
    var at: Position

    constructor (ls: seq<Lexeme>)
      ensures at == Position(ls, TopValue, [])
    {
      at := Position(ls, TopValue, []);
    }

    /** Decoder.Token: separators are consumed on the way to the next token. */
    method Pull() returns (pulled: Pulled)
      requires at.Nested()
      modifies this
      ensures (pulled, at) == NextToken(old(at))
    {
      while true
        invariant at.Nested() && NextToken(at) == NextToken(old(at))
        decreases |at.rest|
      {
        if at.rest == [] {
          return EndOfInput;
        }
        var l := at.rest[0];
        match l
        case OpenArray =>
          if !ValueAllowed(at.state) {
            return SyntaxError;
          }
          at := at.To(ArrayStart, at.stack + [at.state]);
          return Token(l);
        case OpenObject =>
          if !ValueAllowed(at.state) {
            return SyntaxError;
          }
          at := at.To(ObjectStart, at.stack + [at.state]);
          return Token(l);
        case CloseArray =>
          if !at.state.ArrayStart? && !at.state.ArrayComma? {
            return SyntaxError;
          }
          at := at.To(ValueEnd(at.stack[|at.stack| - 1]), at.stack[..|at.stack| - 1]);
          return Token(l);
        case CloseObject =>
          if !at.state.ObjectStart? && !at.state.ObjectComma? {
            return SyntaxError;
          }
          at := at.To(ValueEnd(at.stack[|at.stack| - 1]), at.stack[..|at.stack| - 1]);
          return Token(l);
        case Colon =>
          if !at.state.ObjectColon? {
            return SyntaxError;
          }
          at := at.To(ObjectValue, at.stack);
        case Comma =>
          if at.state.ArrayComma? {
            at := at.To(ArrayValue, at.stack);
          } else if at.state.ObjectComma? {
            at := at.To(ObjectKey, at.stack);
          } else {
            return SyntaxError;
          }
        case Str(_) =>
          if at.state.ObjectStart? || at.state.ObjectKey? {
            at := at.To(ObjectColon, at.stack);
            return Token(l);
          }
          if !ValueAllowed(at.state) {
            return SyntaxError;
          }
          at := at.To(ValueEnd(at.state), at.stack);
          return Token(l);
        case Scalar(_) =>
          if !ValueAllowed(at.state) {
            return SyntaxError;
          }
          at := at.To(ValueEnd(at.state), at.stack);
          return Token(l);
        case Malformed =>
          return SyntaxError;
      }
    }

    /** Decoder.More. */
    predicate More()
      reads this
    {
      at.rest != [] && at.rest[0] != CloseArray && at.rest[0] != CloseObject
    }
  }

  // ----- the check itself ----------------------------------------------------------------------

  /** What is left after a value, when its separator may still be pending. */
  function AfterPending(p: Position): Option<seq<Lexeme>> {
    match p.state
    case ArrayComma => if p.rest != [] && p.rest[0] == Comma then AfterValue(p.rest[1..]) else None
    case ObjectColon => if p.rest != [] && p.rest[0] == Colon then AfterValue(p.rest[1..]) else None
    case _ => AfterValue(p.rest)
  }

  predicate BeforeValue(state: TokenState) {
    state.TopValue? || state.ArrayStart? || state.ArrayComma? || state.ObjectColon?
  }

  function StateAfter(state: TokenState): TokenState {
    if state.TopValue? then TopValue else if state.ObjectColon? then ObjectComma else ArrayComma
  }

  /** The recursive closure of rejectDuplicateJSONKeys: it succeeds exactly where there is an acceptable value, and then
      stands right behind it. */
  method CheckValue(d: Decoder) returns (ok: bool)
    requires d.at.Nested() && BeforeValue(d.at.state)
    modifies d
    ensures d.at.Nested() && (ok <==> AfterPending(old(d.at)).Some?)
    ensures ok ==> d.at == Position(AfterPending(old(d.at)).value, StateAfter(old(d.at.state)), old(d.at.stack))
    decreases |d.at.rest|, 1
  {
    var pulled := d.Pull();
    if !pulled.Token? {
      return false;
    }
    match pulled.lexeme
    case OpenObject =>
      ok := CheckMembers(d);
    case OpenArray =>
      ok := CheckItems(d);
    case Str(_) =>
      ok := true;
    case Scalar(_) =>
      ok := true;
    case _ =>
      ok := false;
  }

  method CheckItems(d: Decoder) returns (ok: bool)
    requires d.at.Nested() && d.at.state.ArrayStart?
    modifies d
    ensures d.at.Nested() && (ok <==> AfterItems(true, old(d.at.rest)).Some?)
    ensures ok ==> var outer := old(d.at.stack);
                   d.at == Position(AfterItems(true, old(d.at.rest)).value, ValueEnd(outer[|outer| - 1]),
                                    outer[..|outer| - 1])
    decreases |d.at.rest|, 2
  {
    while d.More()
      invariant d.at.Nested() && d.at.stack == old(d.at.stack) && (d.at.state.ArrayStart? || d.at.state.ArrayComma?)
      invariant AfterItems(d.at.state.ArrayStart?, d.at.rest) == AfterItems(true, old(d.at.rest))
      invariant |d.at.rest| <= |old(d.at.rest)|
      decreases |d.at.rest|
    {
      var good := CheckValue(d);
      if !good {
        return false;
      }
    }
    var closing := d.Pull();
    ok := closing.Token?;
  }

  method CheckMembers(d: Decoder) returns (ok: bool)
    requires d.at.Nested() && d.at.state.ObjectStart?
    modifies d
    ensures d.at.Nested() && (ok <==> AfterMembers(true, {}, old(d.at.rest)).Some?)
    ensures ok ==> var outer := old(d.at.stack);
                   d.at == Position(AfterMembers(true, {}, old(d.at.rest)).value, ValueEnd(outer[|outer| - 1]),
                                    outer[..|outer| - 1])
    decreases |d.at.rest|, 2
  {
    hide AfterValue;
    var seen: set<string> := {};
    while d.More()
      invariant d.at.Nested() && d.at.stack == old(d.at.stack) && (d.at.state.ObjectStart? || d.at.state.ObjectComma?)
      invariant AfterMembers(d.at.state.ObjectStart?, seen, d.at.rest) == AfterMembers(true, {}, old(d.at.rest))
      invariant |d.at.rest| <= |old(d.at.rest)|
      decreases |d.at.rest|
    {
      var pulled := d.Pull();
      if !pulled.Token? || !pulled.lexeme.Str? {
        return false;
      }
      var key := pulled.lexeme.text;
      if key in seen {
        return false;
      }
      seen := seen + {key};
      var good := CheckValue(d);
      if !good {
        return false;
      }
    }
    var closing := d.Pull();
    ok := closing.Token?;
  }

  /** rejectDuplicateJSONKeys accepts exactly the texts that are one JSON value whose objects all have pairwise distinct
      keys, with nothing behind it. */
  method RejectDuplicateKeys(ls: seq<Lexeme>) returns (ok: bool)
    ensures ok <==> Acceptable(ls)
  {
    RecognizesAcceptable(ls);
    var d := new Decoder(ls);
    ok := CheckValue(d);
    if !ok {
      return;
    }
    var trailing := d.Pull();
    ok := trailing.EndOfInput?;
  }
}
