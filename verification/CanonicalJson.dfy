/**
 writeRFC8785 of api/executor_locator.go: the canonical writer (RFC 8785). String and number leaves are written by
 encoders that stay abstract; what is assumed of them is the predicate Faithful.
 */
module CanonicalJson {
  import opened Collections
  import opened JsonValues
  import opened Utf16
  import opened Wrappers

  /** canonicalJSONString; the value of a numeral as a finite float, if it has one; and ecmaNumber. */
  datatype Encoders = Encoders(text: string -> string, number: string -> Option<real>, digits: real -> string)

  predicate NumeralChar(c: char) {
    '0' <= c <= '9' || c in "+-.e"
  }

  predicate IsNumeral(s: string) {
    && |s| > 0 && (s[0] == '-' || '0' <= s[0] <= '9')
    && forall i :: 0 <= i < |s| ==> NumeralChar(s[i])
  }

  /** Strings are written in quotes and delimit themselves. */
  ghost predicate FaithfulText(e: Encoders) {
    && (forall s :: |e.text(s)| > 0 && e.text(s)[0] == '"')
    && (forall s, t, x, y :: e.text(s) + x == e.text(t) + y ==> s == t && x == y)
  }

  /** The numbers that numerals stand for are written as numerals, different ones differently. Nothing is asked of reals
      that no numeral stands for. */
  ghost predicate FaithfulNumbers(e: Encoders) {
    && (forall s :: e.number(s).Some? ==> IsNumeral(e.digits(e.number(s).value)))
    && (forall s, t ::
          e.number(s).Some? && e.number(t).Some? && e.digits(e.number(s).value) == e.digits(e.number(t).value) ==>
            e.number(s) == e.number(t))
  }

  ghost predicate Faithful(e: Encoders) {
    FaithfulText(e) && FaithfulNumbers(e)
  }

  // ----- the order of the keys -----------------------------------------------------------------

  ghost predicate Increasing(keys: seq<string>) {
    forall i, j :: 0 <= i < j < |keys| ==> Less(keys[i], keys[j])
  }

  lemma {:induction false} IncreasingIsUnique(a: seq<string>, b: seq<string>)
    requires Increasing(a) && Increasing(b)
    requires forall k :: k in a <==> k in b
    ensures a == b
    decreases |a|
  {
    if |b| > 0 {
      assert b[0] in b;
    }
    if a != [] {
      assert a[0] in b && b != [];
      assert b[0] in a;
      if a[0] != b[0] {
        StrictTotalOrder(a[0], b[0], a[0]);
        assert false;
      }
      forall k ensures k in a[1..] <==> k in b[1..] {
        Rest(a, k);
        Rest(b, k);
      }
      IncreasingIsUnique(a[1..], b[1..]);
      assert a == [a[0]] + a[1..] && b == [b[0]] + b[1..];
    }
  }

  lemma {:induction false} Rest(a: seq<string>, k: string)
    requires Increasing(a) && a != []
    ensures k in a[1..] <==> k in a && k != a[0]
  {
    StrictTotalOrder(a[0], a[0], a[0]);
    assert a == [a[0]] + a[1..];
  }

  /** A key put where the smaller ones end and the larger ones begin. */
  lemma {:induction false} Splice(sorted: seq<string>, key: string, n: nat)
    requires Increasing(sorted) && n <= |sorted|
    requires n > 0 ==> Less(sorted[n - 1], key)
    requires forall i :: n <= i < |sorted| ==> Less(key, sorted[i])
    ensures var out := sorted[..n] + [key] + sorted[n..];
            Increasing(out) && forall k :: k in out <==> k in sorted || k == key
  {
    hide Less;
    var out := sorted[..n] + [key] + sorted[n..];
    forall i | 0 <= i < n ensures Less(sorted[i], key) {
      StrictTotalOrder(sorted[i], sorted[n - 1], key);
    }
    forall i, j | 0 <= i < j < |out| ensures Less(out[i], out[j]) {
      assert out[i] == if i < n then sorted[i] else if i == n then key else sorted[i - 1];
      assert out[j] == if j < n then sorted[j] else if j == n then key else sorted[j - 1];
    }
    assert sorted == sorted[..n] + sorted[n..];
  }

  /** The place for a new key, searched from the end. */
  method PlaceOf(sorted: seq<string>, key: string) returns (n: nat)
    requires Increasing(sorted) && key !in sorted
    ensures n <= |sorted| && (n > 0 ==> Less(sorted[n - 1], key))
    ensures forall i :: n <= i < |sorted| ==> Less(key, sorted[i])
  {
    n := |sorted|;
    while n > 0
      invariant n <= |sorted|
      invariant forall i :: n <= i < |sorted| ==> Less(key, sorted[i])
    {
      var before := Utf16Less(key, sorted[n - 1]);
      if !before {
        StrictTotalOrder(key, sorted[n - 1], key);
        return;
      }
      n := n - 1;
    }
  }

  /** sort.Slice on the keys, which are all different. */
  method SortKeys(keys: seq<string>) returns (sorted: seq<string>)
    requires forall i, j :: 0 <= i < j < |keys| ==> keys[i] != keys[j]
    ensures Increasing(sorted) && forall k :: k in sorted <==> k in keys
  {
    sorted := [];
    for i := 0 to |keys|
      invariant Increasing(sorted) && forall k :: k in sorted <==> k in keys[..i]
    {
      var n := PlaceOf(sorted, keys[i]);
      Splice(sorted, keys[i], n);
      sorted := sorted[..n] + [keys[i]] + sorted[n..];
      assert keys[..i + 1] == keys[..i] + [keys[i]];
    }
    assert keys[..|keys|] == keys;
  }

  lemma {:induction false} PlaceExists(sorted: seq<string>, key: string) returns (n: nat)
    requires Increasing(sorted) && key !in sorted
    ensures n <= |sorted| && (n > 0 ==> Less(sorted[n - 1], key))
    ensures forall i :: n <= i < |sorted| ==> Less(key, sorted[i])
  {
    n := |sorted|;
    while n > 0 && Less(key, sorted[n - 1])
      invariant n <= |sorted|
      invariant forall i :: n <= i < |sorted| ==> Less(key, sorted[i])
    {
      n := n - 1;
    }
    if n > 0 {
      StrictTotalOrder(key, sorted[n - 1], key);
    }
  }

  lemma {:induction false} SortedExists(keys: set<string>) returns (sorted: seq<string>)
    ensures Increasing(sorted) && forall k :: k in sorted <==> k in keys
    decreases keys
  {
    if keys == {} {
      sorted := [];
    } else {
      var key :| key in keys;
      var rest := SortedExists(keys - {key});
      var n := PlaceExists(rest, key);
      Splice(rest, key, n);
      sorted := rest[..n] + [key] + rest[n..];
    }
  }

  lemma {:induction false} SomeSorted(keys: set<string>)
    ensures exists sorted :: Increasing(sorted) && forall k :: k in sorted <==> k in keys
  {
    var sorted := SortedExists(keys);
  }

  /** The keys of an object in strictly increasing order; IncreasingIsUnique says there is only one such list. */
  ghost function SortedKeys(keys: set<string>): (sorted: seq<string>)
    ensures Increasing(sorted) && forall k :: k in sorted <==> k in keys
  {
    SomeSorted(keys);
    var sorted :| Increasing(sorted) && forall k :: k in sorted <==> k in keys;
    sorted
  }

  // ----- what is written -----------------------------------------------------------------------

  /** Every numeral in the document is a finite float. */
  predicate Writable(e: Encoders, v: Json) {
    match v
    case Number(numeral) => e.number(numeral).Some?
    case Array(items) => forall i :: 0 <= i < |items| ==> Writable(e, items[i])
    case Object(fields) => forall k :: k in fields ==> Writable(e, fields[k])
    case _ => true
  }

  ghost function Canonical(e: Encoders, v: Json): string
    requires Writable(e, v)
    decreases v, 1
  {
    match v
    case Null => "null"
    case Bool(flag) => if flag then "true" else "false"
    case Number(numeral) => e.digits(e.number(numeral).value)
    case Text(text) => e.text(text)
    case Array(items) => "[" + Items(e, v, 0)
    case Object(fields) => "{" + Members(e, v, SortedKeys(fields.Keys), 0)
  }

  function Comma(i: nat): string {
    if i > 0 then "," else ""
  }

  /** An array from its i-th item on, with the closing bracket. */
  ghost function Items(e: Encoders, v: Json, i: nat): string
    requires Writable(e, v) && v.Array? && i <= |v.items|
    decreases v, 0, |v.items| - i
  {
    if i == |v.items| then "]"
    else Comma(i) + Canonical(e, v.items[i]) + Items(e, v, i + 1)
  }

  /** An object from its i-th key on, with the closing brace. */
  ghost function Members(e: Encoders, v: Json, keys: seq<string>, i: nat): string
    requires Writable(e, v) && v.Object? && (forall k :: k in keys ==> k in v.fields) && i <= |keys|
    decreases v, 0, |keys| - i
  {
    if i == |keys| then "}"
    else Comma(i) + e.text(keys[i]) + ":" + Canonical(e, v.fields[keys[i]]) + Members(e, v, keys, i + 1)
  }

  class Buffer {
    var bytes: string

    constructor ()
      ensures bytes == ""
    {
      bytes := "";
    }

    method Write(more: string)
      modifies this
      ensures bytes == old(bytes) + more
    {
      bytes := bytes + more;
    }
  }

  /** The keys of a map, in whatever order the iteration happens to take. */
  method KeysInSomeOrder(fields: map<string, Json>) returns (keys: seq<string>)
    ensures forall k :: k in keys <==> k in fields
    ensures forall i, j :: 0 <= i < j < |keys| ==> keys[i] != keys[j]
  {
    keys := [];
    var rest := fields.Keys;
    while rest != {}
      invariant rest <= fields.Keys && forall k :: k in keys <==> k in fields.Keys - rest
      invariant forall i, j :: 0 <= i < j < |keys| ==> keys[i] != keys[j]
      decreases rest
    {
      var key :| key in rest;
      assert forall k :: k in fields.Keys - (rest - {key}) <==> k in fields.Keys - rest || k == key;
      rest := rest - {key};
      keys := keys + [key];
    }
  }

  /** writeRFC8785: whatever order the maps are iterated in, exactly the canonical text is appended; it fails exactly
      on a numeral that is not a finite float. */
  method WriteValue(e: Encoders, buffer: Buffer, v: Json) returns (ok: bool)
    modifies buffer
    ensures ok <==> Writable(e, v)
    ensures ok ==> buffer.bytes == old(buffer.bytes) + Canonical(e, v)
    decreases v, 1
  {
    ok := true;
    match v
    case Null =>
      buffer.Write("null");
    case Bool(flag) =>
      if flag {
        buffer.Write("true");
      } else {
        buffer.Write("false");
      }
    case Text(text) =>
      buffer.Write(e.text(text));
    case Number(numeral) =>
      var number := e.number(numeral);
      if number.None? {
        return false;
      }
      buffer.Write(e.digits(number.value));
    case Array(items) =>
      ok := WriteItems(e, buffer, v);
    case Object(fields) =>
      ok := WriteMembers(e, buffer, v);
  }

  method WriteItems(e: Encoders, buffer: Buffer, v: Json) returns (ok: bool)
    requires v.Array?
    modifies buffer
    ensures ok <==> Writable(e, v)
    ensures ok ==> buffer.bytes == old(buffer.bytes) + "[" + Items(e, v, 0)
    decreases v, 0
  {
    hide Canonical;
    buffer.Write("[");
    ghost var before := buffer.bytes;
    for index := 0 to |v.items|
      invariant forall i :: 0 <= i < index ==> Writable(e, v.items[i])
      invariant Writable(e, v) ==> before + Items(e, v, 0) == buffer.bytes + Items(e, v, index)
    {
      ghost var reached := buffer.bytes;
      if index > 0 {
        buffer.Write(",");
      }
      ok := WriteValue(e, buffer, v.items[index]);
      if !ok {
        return;
      }
      if Writable(e, v) {
        Prepend3(reached, Comma(index), Canonical(e, v.items[index]), Items(e, v, index + 1));
      }
    }
    buffer.Write("]");
    ok := true;
  }

  lemma {:induction false} WritableObject(e: Encoders, v: Json)
    requires v.Object?
    ensures Writable(e, v) <==> forall k :: k in v.fields ==> Writable(e, v.fields[k])
  {
  }

  lemma {:induction false} NoMembersLeft(e: Encoders, v: Json, keys: seq<string>)
    requires Writable(e, v) && v.Object? && (forall k :: k in keys ==> k in v.fields)
    ensures Members(e, v, keys, |keys|) == "}"
  {
  }

  lemma {:induction false} MembersStep(e: Encoders, v: Json, keys: seq<string>, i: nat, reached: string)
    requires Writable(e, v) && v.Object? && (forall k :: k in keys ==> k in v.fields) && i < |keys|
    ensures reached + Members(e, v, keys, i)
         == reached + (if i > 0 then "," else "") + e.text(keys[i]) + ":" + Canonical(e, v.fields[keys[i]])
            + Members(e, v, keys, i + 1)
  {
    hide Canonical;
    Prepend5(reached, Comma(i), e.text(keys[i]), ":", Canonical(e, v.fields[keys[i]]), Members(e, v, keys, i + 1));
  }

  method WriteMembers(e: Encoders, buffer: Buffer, v: Json) returns (ok: bool)
    requires v.Object?
    modifies buffer
    ensures ok <==> Writable(e, v)
    ensures ok ==> buffer.bytes == old(buffer.bytes) + "{" + Members(e, v, SortedKeys(v.fields.Keys), 0)
    decreases v, 0, 1
  {
    WritableObject(e, v);
    hide Less, Canonical, Writable, Members;
    var iterated := KeysInSomeOrder(v.fields);
    var keys := SortKeys(iterated);
    IncreasingIsUnique(keys, SortedKeys(v.fields.Keys));
    buffer.Write("{");
    ghost var before := buffer.bytes;
    for index := 0 to |keys|
      invariant forall i :: 0 <= i < index ==> Writable(e, v.fields[keys[i]])
      invariant Writable(e, v) ==> before + Members(e, v, keys, 0) == buffer.bytes + Members(e, v, keys, index)
    {
      ghost var reached := buffer.bytes;
      ok := WriteMember(e, buffer, v, keys[index], index > 0);
      if !ok {
        return;
      }
      if Writable(e, v) {
        MembersStep(e, v, keys, index, reached);
      }
    }
    if Writable(e, v) {
      NoMembersLeft(e, v, keys);
    }
    buffer.Write("}");
    ok := true;
  }

  method WriteMember(e: Encoders, buffer: Buffer, v: Json, key: string, comma: bool) returns (ok: bool)
    requires v.Object? && key in v.fields
    modifies buffer
    ensures ok <==> Writable(e, v.fields[key])
    ensures ok ==>
              buffer.bytes
              == old(buffer.bytes) + (if comma then "," else "") + e.text(key) + ":" + Canonical(e, v.fields[key])
    decreases v, 0, 0
  {
    if comma {
      buffer.Write(",");
    }
    buffer.Write(e.text(key));
    buffer.Write(":");
    ok := WriteValue(e, buffer, v.fields[key]);
  }

  /** marshalRFC8785. */
  method Marshal(e: Encoders, v: Json) returns (text: Option<string>)
    ensures text.Some? <==> Writable(e, v)
    ensures text.Some? ==> text.value == Canonical(e, v)
  {
    var buffer := new Buffer();
    var ok := WriteValue(e, buffer, v);
    text := if ok then Some(buffer.bytes) else None;
  }

  // ----- the text determines the document ------------------------------------------------------

  /** Two documents that differ at most in how their numbers are spelled. */
  ghost predicate Equivalent(e: Encoders, a: Json, b: Json) {
    match a
    case Number(numeral) => b.Number? && e.number(numeral) == e.number(b.numeral)
    case Array(items) =>
      && b.Array? && |items| == |b.items|
      && forall i :: 0 <= i < |items| ==> Equivalent(e, items[i], b.items[i])
    case Object(fields) =>
      && b.Object? && fields.Keys == b.fields.Keys
      && forall k :: k in fields ==> Equivalent(e, fields[k], b.fields[k])
    case _ => a == b
  }

  /** What can follow a value inside a document. */
  predicate Follows(rest: string) {
    rest == "" || rest[0] in ",]}"
  }

  /** The first character tells the kinds of value apart. */
  ghost predicate StartsLike(v: Json, c: char) {
    match v
    case Null => c == 'n'
    case Bool(flag) => c == if flag then 't' else 'f'
    case Number(_) => c == '-' || '0' <= c <= '9'
    case Text(_) => c == '"'
    case Array(_) => c == '['
    case Object(_) => c == '{'
  }

  lemma {:induction false} TextStarts(e: Encoders, s: string)
    requires Faithful(e)
    ensures |e.text(s)| > 0 && e.text(s)[0] == '"'
  {
  }

  lemma {:induction false} TextParses(e: Encoders, s: string, t: string, x: string, y: string)
    requires Faithful(e) && e.text(s) + x == e.text(t) + y
    ensures s == t && x == y
  {
  }

  lemma {:induction false} NumeralFaithful(e: Encoders, s: string, t: string)
    requires Faithful(e) && e.number(s).Some? && e.number(t).Some?
    ensures IsNumeral(e.digits(e.number(s).value))
    ensures e.digits(e.number(s).value) == e.digits(e.number(t).value) ==> e.number(s) == e.number(t)
  {
  }

  lemma {:induction false} CanonicalStarts(e: Encoders, v: Json)
    requires Faithful(e) && Writable(e, v)
    ensures |Canonical(e, v)| > 0 && StartsLike(v, Canonical(e, v)[0])
  {
    match v
    case Text(text) => TextStarts(e, text);
    case Number(numeral) => NumeralFaithful(e, numeral, numeral);
    case _ =>
  }

  /** A numeral ends where the characters of a numeral end. */
  lemma {:induction false} NumeralEnds(s: string, t: string, x: string, y: string)
    requires IsNumeral(s) && IsNumeral(t) && Follows(x) && Follows(y) && s + x == t + y
    ensures s == t && x == y
  {
    assert (s + x)[..|s|] == s && (t + y)[..|t|] == t;
    assert (s + x)[|s|..] == x && (t + y)[|t|..] == y;
  }

  lemma {:induction false} ValueDetermined(e: Encoders, a: Json, b: Json, x: string, y: string)
    requires Faithful(e) && Writable(e, a) && Writable(e, b) && Follows(x) && Follows(y)
    requires Canonical(e, a) + x == Canonical(e, b) + y
    ensures Equivalent(e, a, b) && x == y
    decreases a, 1
  {
    hide Faithful, SortedKeys;
    CanonicalStarts(e, a);
    CanonicalStarts(e, b);
    assert (Canonical(e, a) + x)[0] == Canonical(e, a)[0] && (Canonical(e, b) + y)[0] == Canonical(e, b)[0];
    match a
    case Null =>
      Peel("null", x, y);
    case Bool(flag) =>
      Peel(Canonical(e, a), x, y);
    case Number(numeral) =>
      NumeralFaithful(e, numeral, b.numeral);
      NumeralFaithful(e, b.numeral, numeral);
      NumeralEnds(Canonical(e, a), Canonical(e, b), x, y);
    case Text(text) =>
      TextParses(e, text, b.text, x, y);
    case Array(items) =>
      assert "[" + (Items(e, a, 0) + x) == Canonical(e, a) + x && "[" + (Items(e, b, 0) + y) == Canonical(e, b) + y;
      Peel("[", Items(e, a, 0) + x, Items(e, b, 0) + y);
      ItemsDetermined(e, a, b, 0, x, y);
    case Object(fields) =>
      ObjectDetermined(e, a, b, x, y);
  }

  lemma {:induction false} ObjectDetermined(e: Encoders, a: Json, b: Json, x: string, y: string)
    requires Faithful(e) && Writable(e, a) && Writable(e, b) && a.Object? && b.Object? && Follows(x) && Follows(y)
    requires Canonical(e, a) + x == Canonical(e, b) + y
    ensures Equivalent(e, a, b) && x == y
    decreases a, 0, |SortedKeys(a.fields.Keys)| + 1
  {
    hide Faithful;
    var keys, others := SortedKeys(a.fields.Keys), SortedKeys(b.fields.Keys);
    Regroup2("{", Members(e, a, keys, 0), x);
    Regroup2("{", Members(e, b, others, 0), y);
    Peel("{", Members(e, a, keys, 0) + x, Members(e, b, others, 0) + y);
    MembersDetermined(e, a, b, keys, others, 0, x, y);
  }

  lemma {:induction false} ItemsDetermined(e: Encoders, a: Json, b: Json, i: nat, x: string, y: string)
    requires Faithful(e) && Writable(e, a) && Writable(e, b) && a.Array? && b.Array? && Follows(x) && Follows(y)
    requires i <= |a.items| && i <= |b.items| && Items(e, a, i) + x == Items(e, b, i) + y
    ensures |a.items| == |b.items| && x == y
    ensures forall k :: i <= k < |a.items| ==> Equivalent(e, a.items[k], b.items[k])
    decreases a, 0, |a.items| - i
  {
    hide Faithful, Canonical, Writable;
    ItemsStart(e, a, i);
    ItemsStart(e, b, i);
    assert (Items(e, a, i) + x)[0] == Items(e, a, i)[0] && (Items(e, b, i) + y)[0] == Items(e, b, i)[0];
    if i == |a.items| {
      Peel("]", x, y);
    } else {
      ItemDetermined(e, a, b, i, x, y);
      ItemsDetermined(e, a, b, i + 1, x, y);
    }
  }

  /** What is left of an array starts with the bracket exactly when there is no further item. */
  lemma {:induction false} ItemsStart(e: Encoders, v: Json, i: nat)
    requires Faithful(e) && Writable(e, v) && v.Array? && i <= |v.items|
    ensures |Items(e, v, i)| > 0 && (Items(e, v, i)[0] == ']' <==> i == |v.items|)
    ensures i > 0 ==> Items(e, v, i)[0] in ",]"
  {
    if i < |v.items| {
      CanonicalStarts(e, v.items[i]);
    }
  }

  lemma {:induction false} ItemDetermined(e: Encoders, a: Json, b: Json, i: nat, x: string, y: string)
    requires Faithful(e) && Writable(e, a) && Writable(e, b) && a.Array? && b.Array? && Follows(x) && Follows(y)
    requires i < |a.items| && i < |b.items| && Items(e, a, i) + x == Items(e, b, i) + y
    ensures Equivalent(e, a.items[i], b.items[i])
    ensures Items(e, a, i + 1) + x == Items(e, b, i + 1) + y
    decreases a, 0, |a.items| - i, 0
  {
    hide Faithful, Canonical, Equivalent;
    var restA, restB := Items(e, a, i + 1), Items(e, b, i + 1);
    ItemsStart(e, a, i + 1);
    ItemsStart(e, b, i + 1);
    Regroup3(Comma(i), Canonical(e, a.items[i]), restA, x);
    Regroup3(Comma(i), Canonical(e, b.items[i]), restB, y);
    Peel(Comma(i), Canonical(e, a.items[i]) + (restA + x), Canonical(e, b.items[i]) + (restB + y));
    ValueDetermined(e, a.items[i], b.items[i], restA + x, restB + y);
  }

  lemma {:induction false} MembersDetermined(e: Encoders, a: Json, b: Json, keys: seq<string>, others: seq<string>,
                                             i: nat, x: string, y: string)
    requires Faithful(e) && Writable(e, a) && Writable(e, b) && a.Object? && b.Object? && Follows(x) && Follows(y)
    requires (forall k :: k in keys ==> k in a.fields) && (forall k :: k in others ==> k in b.fields)
    requires i <= |keys| && i <= |others| && keys[..i] == others[..i]
    requires Members(e, a, keys, i) + x == Members(e, b, others, i) + y
    ensures keys == others && x == y
    ensures forall k :: i <= k < |keys| ==> Equivalent(e, a.fields[keys[k]], b.fields[keys[k]])
    decreases a, 0, |keys| - i
  {
    hide Faithful, Writable, Canonical, Equivalent;
    MembersStart(e, a, keys, i);
    MembersStart(e, b, others, i);
    assert (Members(e, a, keys, i) + x)[0] == Members(e, a, keys, i)[0];
    assert (Members(e, b, others, i) + y)[0] == Members(e, b, others, i)[0];
    if i == |keys| {
      Peel("}", x, y);
    } else {
      MemberDetermined(e, a, b, keys, others, i, x, y);
      assert keys[..i + 1] == keys[..i] + [keys[i]] && others[..i + 1] == others[..i] + [others[i]];
      MembersDetermined(e, a, b, keys, others, i + 1, x, y);
    }
  }

  lemma {:induction false} MembersStart(e: Encoders, v: Json, keys: seq<string>, i: nat)
    requires Faithful(e) && Writable(e, v) && v.Object? && (forall k :: k in keys ==> k in v.fields) && i <= |keys|
    ensures |Members(e, v, keys, i)| > 0 && (Members(e, v, keys, i)[0] == '}' <==> i == |keys|)
    ensures i > 0 ==> Members(e, v, keys, i)[0] in ",}"
  {
    if i < |keys| {
      TextStarts(e, keys[i]);
    }
  }

  lemma {:induction false} MemberDetermined(e: Encoders, a: Json, b: Json, keys: seq<string>, others: seq<string>,
                                            i: nat, x: string, y: string)
    requires Faithful(e) && Writable(e, a) && Writable(e, b) && a.Object? && b.Object? && Follows(x) && Follows(y)
    requires (forall k :: k in keys ==> k in a.fields) && (forall k :: k in others ==> k in b.fields)
    requires i < |keys| && i < |others|
    requires Members(e, a, keys, i) + x == Members(e, b, others, i) + y
    ensures keys[i] == others[i] && Equivalent(e, a.fields[keys[i]], b.fields[keys[i]])
    ensures Members(e, a, keys, i + 1) + x == Members(e, b, others, i + 1) + y
    decreases a, 0, |keys| - i, 0
  {
    hide Faithful, Canonical, Equivalent;
    var va, vb := a.fields[keys[i]], b.fields[others[i]];
    var restA, restB := Members(e, a, keys, i + 1), Members(e, b, others, i + 1);
    var ta, tb := e.text(keys[i]), e.text(others[i]);
    MembersStart(e, a, keys, i + 1);
    MembersStart(e, b, others, i + 1);
    Regroup5(Comma(i), ta, ":", Canonical(e, va), restA, x);
    Regroup5(Comma(i), tb, ":", Canonical(e, vb), restB, y);
    var valueA, valueB := Canonical(e, va) + (restA + x), Canonical(e, vb) + (restB + y);
    Peel(Comma(i), ta + (":" + valueA), tb + (":" + valueB));
    TextParses(e, keys[i], others[i], ":" + valueA, ":" + valueB);
    Peel(":", valueA, valueB);
    ValueDetermined(e, va, vb, restA + x, restB + y);
  }

  lemma {:induction false} EquivalentIsWrittenAlike(e: Encoders, a: Json, b: Json)
    requires Writable(e, a) && Writable(e, b) && Equivalent(e, a, b)
    ensures Canonical(e, a) == Canonical(e, b)
    decreases a, 1
  {
    match a
    case Array(items) => ItemsAlike(e, a, b, 0);
    case Object(fields) => MembersAlike(e, a, b, SortedKeys(fields.Keys), 0);
    case _ =>
  }

  lemma {:induction false} ItemsAlike(e: Encoders, a: Json, b: Json, i: nat)
    requires Writable(e, a) && Writable(e, b) && Equivalent(e, a, b) && a.Array? && i <= |a.items|
    ensures Items(e, a, i) == Items(e, b, i)
    decreases a, 0, |a.items| - i
  {
    if i < |a.items| {
      EquivalentIsWrittenAlike(e, a.items[i], b.items[i]);
      ItemsAlike(e, a, b, i + 1);
    }
  }

  lemma {:induction false} MembersAlike(e: Encoders, a: Json, b: Json, keys: seq<string>, i: nat)
    requires Writable(e, a) && Writable(e, b) && Equivalent(e, a, b) && a.Object?
    requires (forall k :: k in keys ==> k in a.fields) && i <= |keys|
    ensures Members(e, a, keys, i) == Members(e, b, keys, i)
    decreases a, 0, |keys| - i
  {
    if i < |keys| {
      EquivalentIsWrittenAlike(e, a.fields[keys[i]], b.fields[keys[i]]);
      MembersAlike(e, a, b, keys, i + 1);
    }
  }

  /** Two documents are written alike exactly when they are the same up to the spelling of their numbers. */
  lemma {:induction false} CanonicalIsInjective(e: Encoders, a: Json, b: Json)
    requires Faithful(e) && Writable(e, a) && Writable(e, b)
    ensures Canonical(e, a) == Canonical(e, b) <==> Equivalent(e, a, b)
  {
    if Canonical(e, a) == Canonical(e, b) {
      assert Canonical(e, a) + "" == Canonical(e, b) + "";
      ValueDetermined(e, a, b, "", "");
    }
    if Equivalent(e, a, b) {
      EquivalentIsWrittenAlike(e, a, b);
    }
  }

  /** Any strictly increasing list of an object's keys is the order its members are written in. */
  lemma {:induction false} KeysAreWrittenInOrder(e: Encoders, v: Json, keys: seq<string>)
    requires Writable(e, v) && v.Object? && Increasing(keys) && forall k :: k in keys <==> k in v.fields
    ensures Canonical(e, v) == "{" + Members(e, v, keys, 0)
  {
    IncreasingIsUnique(keys, SortedKeys(v.fields.Keys));
  }
}
