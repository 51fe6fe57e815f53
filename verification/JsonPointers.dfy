/** Looking a value up in a JSON document by a path in the style of a JSON pointer. */
module JsonPointers {
  import opened Decimals
  import opened Options

  datatype Json = Null | Leaf(text: string) | Array(items: seq<Json>) | Object(members: map<string, Json>)

  datatype Lookup = Found(value: Json) | Missing | InvalidPointer

  // ----- escaping

  /** Replaces every non-overlapping "~" followed by the given digit, from the left. */
  function ReplaceEscape(s: string, digit: char, sub: char): string {
    if |s| >= 2 && s[0] == '~' && s[1] == digit then [sub] + ReplaceEscape(s[2..], digit, sub)
    else if s == [] then [] else [s[0]] + ReplaceEscape(s[1..], digit, sub)
  }

  /** The unescaping of the reader: first "~1", then "~0". */
  function Unescape(token: string): string {
    ReplaceEscape(ReplaceEscape(token, '1', '/'), '0', '~')
  }

  /** The escapes of RFC 6901 read in one pass over the token. */
  ghost function UnescapeOnce(s: string): string {
    if |s| >= 2 && s[0] == '~' && s[1] == '1' then ['/'] + UnescapeOnce(s[2..])
    else if |s| >= 2 && s[0] == '~' && s[1] == '0' then ['~'] + UnescapeOnce(s[2..])
    else if s == [] then [] else [s[0]] + UnescapeOnce(s[1..])
  }

  /** Escaping of a key (section 3 of RFC 6901). */
  ghost function Escape(key: string): string {
    if key == [] then []
    else (if key[0] == '~' then "~0" else if key[0] == '/' then "~1" else [key[0]]) + Escape(key[1..])
  }

  /** After the first pass, a tilde is followed by a zero exactly where it was before. */
  lemma FirstPassKeepsHead(s: string)
    ensures var t := ReplaceEscape(s, '1', '/');
            (t == [] <==> s == []) && (t != [] && t[0] == '0' <==> s != [] && s[0] == '0')
  {
  }

  /** The two passes read a token as the standard does, whatever it contains. */
  lemma {:induction false} TwoPassesAreOne(s: string)
    ensures Unescape(s) == UnescapeOnce(s)
    decreases |s|
  {
    if |s| >= 2 && s[0] == '~' && (s[1] == '1' || s[1] == '0') {
      TwoPassesAreOne(s[2..]);
      var rest := ReplaceEscape(s[2..], '1', '/');
      if s[1] == '1' {
        assert ReplaceEscape(s, '1', '/') == ['/'] + rest;
        assert (['/'] + rest)[1..] == rest;
      } else {
        assert s[1..][1..] == s[2..];
        assert ReplaceEscape(s[1..], '1', '/') == ['0'] + rest;
        assert ReplaceEscape(s, '1', '/') == ['~', '0'] + rest;
        assert (['~', '0'] + rest)[2..] == rest;
      }
    } else if s != [] {
      TwoPassesAreOne(s[1..]);
      FirstPassKeepsHead(s[1..]);
      var rest := ReplaceEscape(s[1..], '1', '/');
      assert ReplaceEscape(s, '1', '/') == [s[0]] + rest;
      assert ([s[0]] + rest)[1..] == rest;
    }
  }

  /** Escaping a key and reading it back gives the key. */
  lemma {:induction false} EscapeRoundTrip(key: string)
    ensures Unescape(Escape(key)) == key
    ensures '/' !in Escape(key)
    decreases |key|
  {
    TwoPassesAreOne(Escape(key));
    EscapedOnce(key);
  }

  lemma {:induction false} EscapedOnce(key: string)
    ensures UnescapeOnce(Escape(key)) == key && '/' !in Escape(key)
    decreases |key|
  {
    if key != [] {
      EscapedOnce(key[1..]);
      var head := if key[0] == '~' then "~0" else if key[0] == '/' then "~1" else [key[0]];
      var e := Escape(key);
      assert e == head + Escape(key[1..]);
      assert e[|head|..] == Escape(key[1..]);
    }
  }

  // ----- splitting

  /** The tokens between the slashes. */
  function Split(s: string): (tokens: seq<string>)
    ensures |tokens| >= 1
  {
    if s == [] then [""]
    else
      var rest := Split(s[1..]);
      if s[0] == '/' then [""] + rest else [[s[0]] + rest[0]] + rest[1..]
  }

  ghost function JoinTokens(tokens: seq<string>): string
    requires |tokens| >= 1
  {
    if |tokens| == 1 then tokens[0] else tokens[0] + "/" + JoinTokens(tokens[1..])
  }

  lemma {:induction false} SplitLast(token: string)
    requires '/' !in token
    ensures Split(token) == [token]
    decreases |token|
  {
    if token != [] {
      assert token[0] in token;
      SplitLast(token[1..]);
      assert [token[0]] + token[1..] == token;
    }
  }

  lemma {:induction false} SplitFirst(token: string, rest: string)
    requires '/' !in token
    ensures Split(token + "/" + rest) == [token] + Split(rest)
    decreases |token|
  {
    var s := token + "/" + rest;
    if token == [] {
      assert s[1..] == rest;
    } else {
      assert token[0] in token;
      assert s[1..] == token[1..] + "/" + rest;
      SplitFirst(token[1..], rest);
      assert [token[0]] + token[1..] == token;
      assert Split(s[1..])[1..] == Split(rest);
    }
  }

  lemma {:induction false} SplitJoin(tokens: seq<string>)
    requires |tokens| >= 1 && forall i :: 0 <= i < |tokens| ==> '/' !in tokens[i]
    ensures Split(JoinTokens(tokens)) == tokens
    decreases |tokens|
  {
    if |tokens| == 1 {
      SplitLast(tokens[0]);
    } else {
      SplitJoin(tokens[1..]);
      SplitFirst(tokens[0], JoinTokens(tokens[1..]));
      assert [tokens[0]] + tokens[1..] == tokens;
    }
  }

  // ----- lookup

  method JsonPointer(root: Json, path: string) returns (r: Lookup)
    ensures r == Resolve(root, path)
  {
    if path == "" {
      return if root == Null then Missing else Found(root);
    }
    if path[0] != '/' {
      return InvalidPointer;
    }
    var value := root;
    var tokens := Split(path[1..]);
    for i := 0 to |tokens|
      invariant ResolveTokens(root, tokens) == ResolveTokens(value, tokens[i..])
    {
      ghost var rest := tokens[i..];
      assert rest[0] == tokens[i] && rest[1..] == tokens[i+1..];
      var next := Child(value, tokens[i]);
      if next.None? {
        return Missing;
      }
      value := next.value;
    }
    assert tokens[|tokens|..] == [];
    r := if value == Null then Missing else Found(value);
  }

  /** The member or element that one token names. A null member counts as absent. */
  function Child(value: Json, token: string): Option<Json> {
    var key := Unescape(token);
    match value
    case Object(members) => if key in members && members[key] != Null then Some(members[key]) else None
    case Array(items) =>
      (match Atoi(key)
       case None => None
       case Some(i) => if 0 <= i < |items| then Some(items[i]) else None)
    case _ => None
  }

  function ResolveTokens(value: Json, tokens: seq<string>): Lookup {
    if tokens == [] then (if value == Null then Missing else Found(value))
    else match Child(value, tokens[0])
      case None => Missing
      case Some(next) => ResolveTokens(next, tokens[1..])
  }

  function Resolve(root: Json, path: string): Lookup {
    if path == "" then (if root == Null then Missing else Found(root))
    else if path[0] != '/' then InvalidPointer
    else ResolveTokens(root, Split(path[1..]))
  }

  /** One move inside a document. */
  datatype Move = Key(key: string) | Index(index: nat)

  /** The value that a sequence of moves leads to. */
  ghost function Walk(value: Json, moves: seq<Move>): Option<Json> {
    if moves == [] then Some(value)
    else match (moves[0], value)
      case (Key(k), Object(members)) => if k in members then Walk(members[k], moves[1..]) else None
      case (Index(i), Array(items)) => if i < |items| then Walk(items[i], moves[1..]) else None
      case _ => None
  }

  ghost function TokenOf(m: Move): string {
    match m
    case Key(k) => Escape(k)
    case Index(i) => Itoa(i)
  }

  ghost function TokensOf(moves: seq<Move>): seq<string> {
    seq(|moves|, i requires 0 <= i < |moves| => TokenOf(moves[i]))
  }

  /** The JSON pointer of a location. */
  ghost function PointerTo(moves: seq<Move>): string {
    if moves == [] then "" else "/" + JoinTokens(TokensOf(moves))
  }

  lemma {:induction false} DigitsNeedNoEscape(s: string)
    requires forall i :: 0 <= i < |s| ==> IsDigit(s[i])
    ensures Unescape(s) == s
    decreases |s|
  {
    TwoPassesAreOne(s);
    DigitsOnce(s);
  }

  lemma {:induction false} DigitsOnce(s: string)
    requires forall i :: 0 <= i < |s| ==> IsDigit(s[i])
    ensures UnescapeOnce(s) == s && '/' !in s
    decreases |s|
  {
    if s != [] { DigitsOnce(s[1..]); }
  }

  /** A token reads as the move that the lookup makes for it. */
  ghost predicate Reads(token: string, m: Move) {
    match m
    case Key(k) => Unescape(token) == k
    case Index(i) => Atoi(Unescape(token)) == Some(i)
  }

  ghost predicate AllRead(tokens: seq<string>, moves: seq<Move>) {
    |tokens| == |moves| && forall i :: 0 <= i < |moves| ==> Reads(tokens[i], moves[i])
  }

  lemma TokenIsRead(m: Move)
    ensures '/' !in TokenOf(m) && Reads(TokenOf(m), m)
  {
    match m
    case Key(k) => EscapeRoundTrip(k);
    case Index(i) =>
      DigitsNeedNoEscape(Itoa(i));
      DigitsOnce(Itoa(i));
      AtoiRoundTrip(i);
  }

  lemma {:induction false} MovesAreFollowed(value: Json, tokens: seq<string>, moves: seq<Move>, target: Json)
    requires AllRead(tokens, moves) && Walk(value, moves) == Some(target) && target != Null
    ensures ResolveTokens(value, tokens) == Found(target)
    decreases |moves|
  {
    if moves != [] {
      assert Reads(tokens[0], moves[0]);
      match moves[0] {
        case Key(k) =>
          MovesAreFollowed(value.members[k], tokens[1..], moves[1..], target);
          NullLeadsNowhere(value.members[k], moves[1..], target);
        case Index(i) => MovesAreFollowed(value.items[i], tokens[1..], moves[1..], target);
      }
    }
  }

  lemma {:induction false} FoundIsReached(value: Json, tokens: seq<string>, target: Json) returns (moves: seq<Move>)
    requires ResolveTokens(value, tokens) == Found(target)
    ensures AllRead(tokens, moves) && Walk(value, moves) == Some(target) && target != Null
    decreases |tokens|
  {
    moves := [];
    if tokens != [] {
      var next := Child(value, tokens[0]).value;
      var rest := FoundIsReached(next, tokens[1..], target);
      var first := if value.Object? then Key(Unescape(tokens[0])) else Index(Atoi(Unescape(tokens[0])).value);
      moves := [first] + rest;
      assert moves[1..] == rest;
      assert tokens == [tokens[0]] + tokens[1..];
    }
  }

  /** The lookup finds exactly the values other than null at the end of moves that its tokens read as. */
  lemma FoundIffReached(value: Json, tokens: seq<string>, target: Json)
    ensures ResolveTokens(value, tokens) == Found(target)
       <==> target != Null && exists moves :: AllRead(tokens, moves) && Walk(value, moves) == Some(target)
  {
    if ResolveTokens(value, tokens) == Found(target) {
      var moves := FoundIsReached(value, tokens, target);
    }
    if moves :| AllRead(tokens, moves) && Walk(value, moves) == Some(target) {
      if target != Null {
        MovesAreFollowed(value, tokens, moves, target);
      }
    }
  }

  lemma NullLeadsNowhere(value: Json, moves: seq<Move>, target: Json)
    requires Walk(value, moves) == Some(target) && target != Null
    ensures value != Null
  {
  }

  /** Every non-null value of a document is found under the pointer of its location, whatever characters
      the keys on the way contain. */
  lemma PointerFindsEveryValue(root: Json, moves: seq<Move>, target: Json)
    requires Walk(root, moves) == Some(target) && target != Null
    ensures Resolve(root, PointerTo(moves)) == Found(target)
  {
    if moves != [] {
      var tokens := TokensOf(moves);
      forall i | 0 <= i < |tokens| ensures '/' !in tokens[i] && Reads(tokens[i], moves[i]) { TokenIsRead(moves[i]); }
      SplitJoin(tokens);
      assert PointerTo(moves)[1..] == JoinTokens(tokens);
      MovesAreFollowed(root, tokens, moves, target);
    }
  }
}
