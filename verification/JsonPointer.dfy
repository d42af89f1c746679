/**
 JSON pointers (RFC 6901): the two-pass escaping of validCandidateContentURI and the resolution of
 resolveSharedJSONPointer, both in api/shared_contract_v2.go.
 */
module JsonPointer {
  import opened Wrappers
  import opened JsonValues

  // ----- escaping ------------------------------------------------------------------------------

  /** strings.ReplaceAll for a non-empty needle: left to right, never overlapping. */
  function ReplaceAll(s: string, old_: string, new_: string): string
    requires |old_| > 0
    decreases |s|
  {
    if |s| < |old_| then s
    else if s[..|old_|] == old_ then new_ + ReplaceAll(s[|old_|..], old_, new_)
    else [s[0]] + ReplaceAll(s[1..], old_, new_)
  }

  function Escape(key: string): string {
    ReplaceAll(ReplaceAll(key, "~", "~0"), "/", "~1")
  }

  function Unescape(token: string): string {
    ReplaceAll(ReplaceAll(token, "~1", "/"), "~0", "~")
  }

  function EscapedChar(c: char): string {
    if c == '~' then "~0" else if c == '/' then "~1" else [c]
  }

  /** No separator, and a tilde only as the start of one of the two escapes. */
  predicate WellEscaped(token: string)
    decreases |token|
  {
    if token == "" then true
    else if token[0] == '/' then false
    else if token[0] == '~' then |token| >= 2 && token[1] in "01" && WellEscaped(token[2..])
    else WellEscaped(token[1..])
  }

  /** The two passes together escape character by character. */
  lemma {:induction false} EscapeFirst(c: char, rest: string)
    ensures Escape([c] + rest) == EscapedChar(c) + Escape(rest)
  {
    var s := [c] + rest;
    assert s[1..] == rest && s[..1] == [c];
    var once := ReplaceAll(rest, "~", "~0");
    if c == '~' {
      assert ReplaceAll(s, "~", "~0") == "~0" + once;
      assert ("~0" + once)[1..] == "0" + once && ("0" + once)[1..] == once;
      assert ("~0" + once)[..1] == "~" && ("0" + once)[..1] == "0";
      var twice := ReplaceAll(once, "/", "~1");
      assert ReplaceAll("0" + once, "/", "~1") == "0" + twice;
      assert ReplaceAll("~0" + once, "/", "~1") == "~" + ("0" + twice);
    } else {
      assert ReplaceAll(s, "~", "~0") == [c] + once;
      assert ([c] + once)[1..] == once && ([c] + once)[..1] == [c];
    }
  }

  /** And the two passes of unescaping undo one escaped character at a time. */
  lemma {:induction false} UnescapeFirst(c: char, rest: string)
    ensures Unescape(EscapedChar(c) + rest) == [c] + Unescape(rest)
  {
    var s := EscapedChar(c) + rest;
    var once := ReplaceAll(rest, "~1", "/");
    if c == '~' {
      assert s[1..] == "0" + rest && s[..2] == "~0" && ("0" + rest)[1..] == rest;
      assert |rest| > 0 ==> ("0" + rest)[..2][0] == '0';
      assert ReplaceAll("0" + rest, "~1", "/") == "0" + once;
      assert ReplaceAll(s, "~1", "/") == "~0" + once;
      assert ("~0" + once)[..2] == "~0" && ("~0" + once)[2..] == once;
    } else {
      if c == '/' {
        assert s[..2] == "~1" && s[2..] == rest;
      } else {
        assert s[1..] == rest;
        assert |s| >= 2 ==> s[..2][0] == c;
      }
      assert ReplaceAll(s, "~1", "/") == [c] + once;
      assert ([c] + once)[1..] == once;
      assert |once| > 0 ==> ([c] + once)[..2][0] == c;
    }
  }

  /** Unescaping undoes escaping for every key, and an escaped key holds no separator. */
  lemma {:induction false} EscapeRoundTrip(key: string)
    ensures Unescape(Escape(key)) == key
    ensures WellEscaped(Escape(key)) && '/' !in Escape(key)
    decreases |key|
  {
    if key != "" {
      var c, rest := key[0], key[1..];
      assert key == [c] + rest;
      EscapeRoundTrip(rest);
      EscapeFirst(c, rest);
      UnescapeFirst(c, Escape(rest));
      assert Escape(key)[|EscapedChar(c)|..] == Escape(rest);
    }
  }

  lemma {:induction false} EscapesOne(c: char)
    ensures Escape([c]) == EscapedChar(c) && Escape("") == ""
  {
    EscapeFirst(c, "");
    assert [c] + "" == [c];
    hide Escape;
    assert EscapedChar(c) + "" == EscapedChar(c);
  }

  lemma {:induction false} EscapesJoined(a: string, b: string)
    ensures Escape(a + b) == Escape(a) + Escape(b)
    decreases |a|
  {
    hide Escape;
    if a == "" {
      EscapesOne('a');
      assert a + b == b && "" + Escape(b) == Escape(b);
    } else {
      EscapesJoined(a[1..], b);
      EscapeFirst(a[0], a[1..]);
      EscapeFirst(a[0], a[1..] + b);
      assert a == [a[0]] + a[1..] && a + b == [a[0]] + (a[1..] + b);
      assert EscapedChar(a[0]) + (Escape(a[1..]) + Escape(b)) == EscapedChar(a[0]) + Escape(a[1..]) + Escape(b);
    }
  }

  /** A tilde is escaped as ~0, a separator as ~1, every other character as itself, one behind the other. */
  lemma {:induction false} EscapesByCharacter(a: string, b: string, c: char)
    ensures Escape(a + b) == Escape(a) + Escape(b) && Escape("") == ""
    ensures Escape("~") == "~0" && Escape("/") == "~1" && (c != '~' && c != '/' ==> Escape([c]) == [c])
  {
    hide Escape;
    EscapesJoined(a, b);
    EscapesOne('~');
    EscapesOne('/');
    EscapesOne(c);
  }

  /** The other way round: escaping undoes unescaping exactly on the well-escaped tokens. */
  lemma {:induction false} UnescapeRoundTrip(token: string)
    ensures Escape(Unescape(token)) == token <==> WellEscaped(token)
    decreases |token|
  {
    if WellEscaped(token) {
      if token != "" {
        var c := if token[0] != '~' then token[0] else if token[1] == '0' then '~' else '/';
        var rest := token[|EscapedChar(c)|..];
        assert token == EscapedChar(c) + rest;
        UnescapeRoundTrip(rest);
        UnescapeFirst(c, rest);
        EscapeFirst(c, Unescape(rest));
      }
    } else {
      EscapeRoundTrip(Unescape(token));
    }
  }

  // ----- splitting -----------------------------------------------------------------------------

  /** strings.Split on the separator: always at least one token. */
  function Split(s: string): (tokens: seq<string>)
    ensures |tokens| > 0
    decreases |s|
  {
    if s == "" then [""]
    else if s[0] == '/' then [""] + Split(s[1..])
    else
      var tokens := Split(s[1..]);
      [[s[0]] + tokens[0]] + tokens[1..]
  }

  lemma {:induction false} SplitToken(token: string, rest: string)
    requires '/' !in token
    ensures Split(token) == [token]
    ensures Split(token + "/" + rest) == [token] + Split(rest)
    decreases |token|
  {
    var s := token + "/" + rest;
    if token == "" {
      assert s[1..] == rest;
    } else {
      SplitToken(token[1..], rest);
      assert s[1..] == token[1..] + "/" + rest;
      assert s[0] == token[0] && [token[0]] + token[1..] == token;
    }
  }

  // ----- pointers ------------------------------------------------------------------------------

  /** The pointer a producer builds for a sequence of reference tokens. */
  function PointerTo(path: seq<string>): string {
    if path == [] then "" else "/" + Escape(path[0]) + PointerTo(path[1..])
  }

  function UnescapeAll(tokens: seq<string>): (path: seq<string>)
    ensures |path| == |tokens|
  {
    if tokens == [] then [] else [Unescape(tokens[0])] + UnescapeAll(tokens[1..])
  }

  /** The tokens a pointer stands for. */
  function PathOf(pointer: string): seq<string> {
    if pointer == "" then [] else UnescapeAll(Split(pointer[1..]))
  }

  lemma {:induction false} SplitFirst(token: string, tail: string)
    requires '/' !in token && (tail == "" || tail[0] == '/')
    ensures Split(token + tail) == [token] + (if tail == "" then [] else Split(tail[1..]))
  {
    if tail == "" {
      SplitToken(token, "");
      assert token + tail == token;
    } else {
      SplitToken(token, tail[1..]);
      assert token + tail == token + "/" + tail[1..];
    }
  }

  lemma {:induction false} PathOfFirst(token: string, tail: string)
    requires '/' !in token && (tail == "" || tail[0] == '/')
    ensures PathOf("/" + token + tail) == [Unescape(token)] + PathOf(tail)
  {
    hide Unescape, Split;
    SplitFirst(token, tail);
    assert ("/" + token + tail)[1..] == token + tail;
    var tokens := Split(token + tail);
    assert tokens[0] == token && tokens[1..] == if tail == "" then [] else Split(tail[1..]);
  }

  /** A pointer built from any tokens at all is read back as exactly those tokens. */
  lemma {:induction false} PointerRoundTrip(path: seq<string>)
    ensures PathOf(PointerTo(path)) == path
    decreases |path|
  {
    hide Escape, Unescape, WellEscaped;
    if path != [] {
      var token, tail := Escape(path[0]), PointerTo(path[1..]);
      EscapeRoundTrip(path[0]);
      PointerRoundTrip(path[1..]);
      PathOfFirst(token, tail);
      hide PathOf;
      assert PointerTo(path) == "/" + token + tail;
      assert path == [path[0]] + path[1..];
    }
  }

  datatype Resolution = Reached(value: Json) | InvalidPointer | MemberAbsent | IndexInvalid | TraversesScalar

  /** Following tokens down a document. How a token is read as an array index (fmt.Sscanf with %d) is a parameter. */
  function Follow(value: Json, path: seq<string>, index: string -> Option<int>): Resolution
    decreases |path|
  {
    if path == [] then Reached(value)
    else match value
         case Object(fields) =>
           if path[0] in fields then Follow(fields[path[0]], path[1..], index) else MemberAbsent
         case Array(items) =>
           var i := index(path[0]);
           if i.Some? && 0 <= i.value < |items| then Follow(items[i.value], path[1..], index) else IndexInvalid
         case _ => TraversesScalar
  }

  /** resolveSharedJSONPointer. */
  method Resolve(root: Json, pointer: string, index: string -> Option<int>) returns (r: Resolution)
    ensures r == if pointer != "" && pointer[0] != '/' then InvalidPointer else Follow(root, PathOf(pointer), index)
  {
    if pointer == "" {
      return Reached(root);
    }
    if pointer[0] != '/' {
      return InvalidPointer;
    }
    var current := root;
    var tokens := Split(pointer[1..]);
    ghost var path := PathOf(pointer);
    for n := 0 to |tokens|
      invariant UnescapeAll(tokens[n..]) == path[n..]
      invariant Follow(current, path[n..], index) == Follow(root, path, index)
    {
      var token := Unescape(tokens[n]);
      assert tokens[n..][1..] == tokens[n + 1..];
      assert path[n..][0] == token && path[n..][1..] == path[n + 1..];
      match current
      case Object(fields) =>
        if token !in fields {
          return MemberAbsent;
        }
        current := fields[token];
      case Array(items) =>
        var i := index(token);
        if i.None? || i.value < 0 || i.value >= |items| {
          return IndexInvalid;
        }
        current := items[i.value];
      case _ =>
        return TraversesScalar;
    }
    return Reached(current);
  }

  /** One token leads from a value to a part of it: an object's key to that member, an array's index to that item. */
  predicate Leads(value: Json, token: string, part: Json, index: string -> Option<int>) {
    || (value.Object? && token in value.fields && part == value.fields[token])
    || (value.Array? && index(token).Some? && 0 <= index(token).value < |value.items|
        && part == value.items[index(token).value])
  }

  /** The values passed on the way, one for each token and the last one behind it. */
  ghost predicate Way(values: seq<Json>, path: seq<string>, index: string -> Option<int>) {
    && |values| == |path| + 1
    && forall n :: 0 <= n < |path| ==> Leads(values[n], path[n], values[n + 1], index)
  }

  ghost predicate ReachesBy(root: Json, path: seq<string>, subtree: Json, index: string -> Option<int>) {
    exists values :: Way(values, path, index) && values[0] == root && values[|path|] == subtree
  }

  /** Why a token leads nowhere. */
  predicate Stops(value: Json, token: string, index: string -> Option<int>, why: Resolution) {
    match why
    case MemberAbsent => value.Object? && token !in value.fields
    case IndexInvalid =>
      value.Array? && (index(token).None? || index(token).value < 0 || index(token).value >= |value.items|)
    case TraversesScalar => !value.Object? && !value.Array?
    case _ => false
  }

  ghost predicate StopsBy(root: Json, path: seq<string>, index: string -> Option<int>, why: Resolution) {
    exists n, value :: 0 <= n < |path| && ReachesBy(root, path[..n], value, index) && Stops(value, path[n], index, why)
  }

  lemma {:induction false} OneFurther(root: Json, part: Json, path: seq<string>, subtree: Json,
                                      index: string -> Option<int>)
    requires path != [] && Leads(root, path[0], part, index) && ReachesBy(part, path[1..], subtree, index)
    ensures ReachesBy(root, path, subtree, index)
  {
    hide Leads;
    var values :| Way(values, path[1..], index) && values[0] == part && values[|path[1..]|] == subtree;
    var more := [root] + values;
    forall n | 0 <= n < |path| ensures Leads(more[n], path[n], more[n + 1], index) {
      if n > 0 {
        assert Leads(values[n - 1], path[1..][n - 1], values[n], index);
      }
    }
    assert Way(more, path, index);
  }

  lemma {:induction false} StopsFurther(root: Json, part: Json, path: seq<string>, index: string -> Option<int>,
                                        why: Resolution)
    requires path != [] && Leads(root, path[0], part, index) && StopsBy(part, path[1..], index, why)
    ensures StopsBy(root, path, index, why)
  {
    hide Leads, Stops, ReachesBy;
    var n, value :| 0 <= n < |path[1..]| && ReachesBy(part, path[1..][..n], value, index)
                    && Stops(value, path[1..][n], index, why);
    var next := n + 1;
    assert path[..next][1..] == path[1..][..n] && path[..next][0] == path[0];
    OneFurther(root, part, path[..next], value, index);
    assert path[next] == path[1..][n];
  }

  /** What resolution answers is so: the value it reaches lies at the end of the way the tokens lead, through members
      of objects and items of arrays; and when it fails, they lead to a value at which the next token does so, for the
      reason given. */
  lemma {:induction false} ResolutionIsSo(root: Json, path: seq<string>, index: string -> Option<int>)
    ensures match Follow(root, path, index)
            case Reached(subtree) => ReachesBy(root, path, subtree, index)
            case why => StopsBy(root, path, index, why)
    decreases |path|
  {
    if path == [] {
      assert Way([root], path, index);
    } else {
      var part := if root.Object? && path[0] in root.fields then root.fields[path[0]]
                  else if root.Array? && index(path[0]).Some? && 0 <= index(path[0]).value < |root.items| then
                    root.items[index(path[0]).value]
                  else root;
      if Leads(root, path[0], part, index) {
        ResolutionIsSo(part, path[1..], index);
        match Follow(root, path, index)
        case Reached(subtree) => OneFurther(root, part, path, subtree, index);
        case why => StopsFurther(root, part, path, index, why);
      } else {
        assert Way([root], path[..0], index);
        assert ReachesBy(root, path[..0], root, index);
        assert Stops(root, path[0], index, Follow(root, path, index));
      }
    }
  }

  /** And where the tokens lead, resolution gets, so a pointer to the i-th item of an array reaches that item. */
  lemma {:induction false} ReachedIfLed(root: Json, path: seq<string>, subtree: Json, index: string -> Option<int>)
    requires ReachesBy(root, path, subtree, index)
    ensures Follow(root, path, index) == Reached(subtree)
    decreases |path|
  {
    var values :| Way(values, path, index) && values[0] == root && values[|path|] == subtree;
    if path != [] {
      assert Leads(values[0], path[0], values[1], index);
      var rest := values[1..];
      forall n | 0 <= n < |path[1..]| ensures Leads(rest[n], path[1..][n], rest[n + 1], index) {
        assert Leads(values[n + 1], path[n + 1], values[n + 2], index);
      }
      assert Way(rest, path[1..], index);
      ReachedIfLed(values[1], path[1..], subtree, index);
    }
  }

  /** The subtree below a sequence of object keys. */
  ghost predicate KeysLeadTo(root: Json, path: seq<string>, subtree: Json)
    decreases |path|
  {
    if path == [] then subtree == root
    else root.Object? && path[0] in root.fields && KeysLeadTo(root.fields[path[0]], path[1..], subtree)
  }

  /** A pointer built from object keys resolves to exactly the subtree those keys lead to, whatever the keys contain. */
  lemma {:induction false} PointerReachesSubtree(root: Json, path: seq<string>, subtree: Json,
                                                 index: string -> Option<int>)
    requires KeysLeadTo(root, path, subtree)
    ensures Follow(root, PathOf(PointerTo(path)), index) == Reached(subtree)
    decreases |path|
  {
    PointerRoundTrip(path);
    if path != [] {
      PointerReachesSubtree(root.fields[path[0]], path[1..], subtree, index);
      PointerRoundTrip(path[1..]);
    }
  }

  /** A key without tildes and separators is its own escape. */
  lemma {:induction false} PlainKey(key: string)
    requires '~' !in key && '/' !in key
    ensures Escape(key) == key
    decreases |key|
  {
    if key != "" {
      assert key == [key[0]] + key[1..];
      EscapeFirst(key[0], key[1..]);
      PlainKey(key[1..]);
    }
  }

  function ContentMember(): string {
    "candidate_artifact_contents"
  }

  /** The pointer a producer puts into the locator of a candidate artifact. */
  function ContentPointer(artifactId: string): string {
    "/" + ContentMember() + "/" + Escape(artifactId)
  }

  lemma {:induction false} ContentMemberIsPlain()
    ensures Escape(ContentMember()) == ContentMember()
  {
    PlainKey(ContentMember());
  }

  /** It finds that artifact's content in the result document. */
  lemma {:induction false} ContentPointerFinds(result: Json, contents: map<string, Json>, artifactId: string,
                                               index: string -> Option<int>)
    requires result.Object? && ContentMember() in result.fields
    requires result.fields[ContentMember()] == Object(contents) && artifactId in contents
    ensures Follow(result, PathOf(ContentPointer(artifactId)), index) == Reached(contents[artifactId])
  {
    hide Escape, PathOf, ContentMember;
    ContentMemberIsPlain();
    var path := [ContentMember(), artifactId];
    assert path[1..] == [artifactId] && path[1..][1..] == [];
    assert PointerTo([artifactId]) == "/" + Escape(artifactId);
    assert PointerTo(path) == "/" + ContentMember() + PointerTo([artifactId]);
    assert PointerTo(path) == ContentPointer(artifactId);
    assert KeysLeadTo(contents[artifactId], [], contents[artifactId]);
    assert KeysLeadTo(Object(contents), [artifactId], contents[artifactId]);
    PointerReachesSubtree(result, path, contents[artifactId], index);
  }

  // ----- the fragment of a locator -------------------------------------------------------------

  function HexDigit(c: char): Option<nat> {
    if '0' <= c <= '9' then Some(c as nat - '0' as nat)
    else if 'a' <= c <= 'f' then Some(c as nat - 'a' as nat + 10)
    else if 'A' <= c <= 'F' then Some(c as nat - 'A' as nat + 10)
    else None
  }

  /** url.PathUnescape on the bytes of a string: a percent sign takes two hexadecimal digits, everything else stays. */
  function PathUnescape(s: string): (decoded: Option<string>)
    ensures decoded.Some? ==> |decoded.value| <= |s|
    ensures decoded.Some? && '%' in s ==> |decoded.value| < |s|
    decreases |s|
  {
    if s == "" then Some("")
    else if s[0] != '%' then
      match PathUnescape(s[1..])
      case None => None
      case Some(rest) => Some([s[0]] + rest)
    else if |s| < 3 || HexDigit(s[1]).None? || HexDigit(s[2]).None? then None
    else
      match PathUnescape(s[3..])
      case None => None
      case Some(rest) => Some([(16 * HexDigit(s[1]).value + HexDigit(s[2]).value) as char] + rest)
  }

  lemma {:induction false} UnescapePlain(s: string)
    requires s != "" && s[0] != '%' && PathUnescape(s[1..]).Some?
    ensures PathUnescape(s) == Some([s[0]] + PathUnescape(s[1..]).value)
  {
  }

  /** Decoding leaves exactly the strings without a percent sign alone. */
  lemma {:induction false} UnescapeKeeps(s: string)
    ensures PathUnescape(s) == Some(s) <==> '%' !in s
    decreases |s|
  {
    if '%' in s {
      assert PathUnescape(s) != Some(s);
    } else if s != "" {
      UnescapeKeeps(s[1..]);
      UnescapePlain(s);
      hide PathUnescape;
      assert [s[0]] + s[1..] == s;
    }
  }

  lemma {:induction false} EscapeAddsNoPercent(key: string)
    ensures '%' in Escape(key) <==> '%' in key
    decreases |key|
  {
    if key != "" {
      EscapeAddsNoPercent(key[1..]);
      EscapeFirst(key[0], key[1..]);
      assert key == [key[0]] + key[1..];
    }
  }

  /** resolveSharedInternalLocator on the fragment of a locator: percent-decoding, then the pointer. None where decoding
      fails. */
  function FragmentLeadsTo(root: Json, fragment: string, index: string -> Option<int>): Option<Resolution> {
    match PathUnescape(fragment)
    case None => None
    case Some(pointer) =>
      Some(if pointer != "" && pointer[0] != '/' then InvalidPointer else Follow(root, PathOf(pointer), index))
  }

  predicate NoPercent(path: seq<string>) {
    forall i :: 0 <= i < |path| ==> '%' !in path[i]
  }

  lemma {:induction false} PointerPercent(path: seq<string>)
    ensures '%' in PointerTo(path) <==> !NoPercent(path)
    decreases |path|
  {
    hide Escape;
    if path != [] {
      EscapeAddsNoPercent(path[0]);
      PointerPercent(path[1..]);
      assert '%' in PointerTo(path) <==> '%' in path[0] || !NoPercent(path[1..]);
      if !NoPercent(path) && '%' !in path[0] {
        var i :| 0 <= i < |path| && '%' in path[i];
        assert path[1..][i - 1] == path[i];
      }
    }
  }

  /** A fragment that is the plain pointer of some keys is left alone by the decoding exactly when none of them holds a
      percent sign, and then leads to exactly the subtree below them. */
  lemma {:induction false} FragmentReachesSubtree(root: Json, path: seq<string>, subtree: Json,
                                                  index: string -> Option<int>)
    requires KeysLeadTo(root, path, subtree)
    ensures PathUnescape(PointerTo(path)) == Some(PointerTo(path)) <==> NoPercent(path)
    ensures NoPercent(path) ==> FragmentLeadsTo(root, PointerTo(path), index) == Some(Reached(subtree))
  {
    hide PathUnescape, PathOf, Follow, Escape, NoPercent, KeysLeadTo;
    UnescapeKeeps(PointerTo(path));
    PointerPercent(path);
    PointerReachesSubtree(root, path, subtree, index);
  }

  /** Percent signs written as %25, everything else as it is. */
  function EncodePercent(s: string): string {
    ReplaceAll(s, "%", "%25")
  }

  lemma {:induction false} EncodedFirst(s: string)
    requires s != ""
    ensures EncodePercent(s) == (if s[0] == '%' then "%25" else [s[0]]) + EncodePercent(s[1..])
  {
    assert s[..1] == [s[0]];
  }

  lemma {:induction false} UnescapeEncoded(rest: string)
    requires PathUnescape(rest).Some?
    ensures PathUnescape("%25" + rest) == Some("%" + PathUnescape(rest).value)
  {
    var s := "%25" + rest;
    assert s[0] == '%' && s[1] == '2' && s[2] == '5' && s[3..] == rest;
    assert HexDigit(s[1]) == Some(2) && HexDigit(s[2]) == Some(5) && 37 as char == '%';
  }

  /** Decoding undoes that for every string. */
  lemma {:induction false} EncodingRoundTrip(s: string)
    ensures PathUnescape(EncodePercent(s)) == Some(s)
    decreases |s|
  {
    hide EncodePercent, PathUnescape;
    if s == "" {
      EmptyRoundTrip();
    } else {
      EncodedFirst(s);
      EncodingRoundTrip(s[1..]);
      var rest := EncodePercent(s[1..]);
      assert s == [s[0]] + s[1..];
      if s[0] == '%' {
        UnescapeEncoded(rest);
      } else {
        assert ([s[0]] + rest)[1..] == rest;
        UnescapePlain([s[0]] + rest);
      }
    }
  }

  lemma {:induction false} EmptyRoundTrip()
    ensures PathUnescape(EncodePercent("")) == Some("")
  {
  }

  /** So a locator whose writer encodes the percent signs of the pointer reaches every subtree, whatever the keys
      hold. */
  lemma {:induction false} EncodedFragmentReachesSubtree(root: Json, path: seq<string>, subtree: Json,
                                                         index: string -> Option<int>)
    requires KeysLeadTo(root, path, subtree)
    ensures FragmentLeadsTo(root, EncodePercent(PointerTo(path)), index) == Some(Reached(subtree))
  {
    hide PathUnescape, EncodePercent, PathOf, Follow, Escape, KeysLeadTo;
    EncodingRoundTrip(PointerTo(path));
    PointerReachesSubtree(root, path, subtree, index);
  }
}
