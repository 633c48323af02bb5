/**
 The syntax of JSON Pointers as the structured-file editor reads it. Tokens are
 separated by `/`; inside a token `~1` stands for `/` and `~0` for `~`. Two
 things differ from RFC 6901: both "" and "/" name the whole document, and any
 number of leading slashes is dropped.
 */
module JsonPointer {

  /** Python's `s.replace(ab, c)` for a two-character pattern. */
  function Replace(s: string, a: char, b: char, c: char): string {
    if s == "" then ""
    else if |s| >= 2 && s[0] == a && s[1] == b then [c] + Replace(s[2..], a, b, c)
    else [s[0]] + Replace(s[1..], a, b, c)
  }

  /** Python's `s.replace(c, ab)` for a single character. */
  function Expand(s: string, c: char, a: char, b: char): string {
    if s == "" then ""
    else (if s[0] == c then [a, b] else [s[0]]) + Expand(s[1..], c, a, b)
  }

  function Unescape(s: string): string {
    Replace(Replace(s, '~', '1', '/'), '~', '0', '~')
  }

  /** The writer's side: `~` becomes `~0`, then `/` becomes `~1`. */
  function Escape(t: string): string {
    Expand(Expand(t, '~', '~', '0'), '/', '~', '1')
  }

  function LStrip(s: string): string {
    if s != "" && s[0] == '/' then LStrip(s[1..]) else s
  }

  /** Python's `s.split("/")`: never empty, the parts are what lies between slashes. */
  function Split(s: string): (r: seq<string>)
    ensures |r| >= 1
  {
    if s == "" then [""]
    else
      var rest := Split(s[1..]);
      if s[0] == '/' then [""] + rest else [[s[0]] + rest[0]] + rest[1..]
  }

  function Join(tokens: seq<string>): string {
    if tokens == [] then ""
    else if |tokens| == 1 then tokens[0]
    else tokens[0] + "/" + Join(tokens[1..])
  }

  function UnescapeAll(parts: seq<string>): seq<string> {
    seq(|parts|, i requires 0 <= i < |parts| => Unescape(parts[i]))
  }

  function EscapeAll(tokens: seq<string>): seq<string> {
    seq(|tokens|, i requires 0 <= i < |tokens| => Escape(tokens[i]))
  }

  function SplitPointer(pointer: string): seq<string> {
    if pointer == "" || pointer == "/" then []
    else UnescapeAll(Split(LStrip(pointer)))
  }

  /** The pointer of a list of tokens. */
  function PointerTo(tokens: seq<string>): string {
    "/" + Join(EscapeAll(tokens))
  }

  // ---------------------------------------------------------------------------
  // Escaping
  // ---------------------------------------------------------------------------

  function EscapeChar(c: char): string {
    if c == '~' then "~0" else if c == '/' then "~1" else [c]
  }

  lemma EscapeHead(t: string)
    requires t != ""
    ensures Escape(t) == EscapeChar(t[0]) + Escape(t[1..])
  {
    var inner := Expand(t[1..], '~', '~', '0');
    var head := if t[0] == '~' then "~0" else [t[0]];
    assert Expand(t, '~', '~', '0') == head + inner;
    ExpandAppend(head, inner);
    assert Expand(head, '/', '~', '1') == EscapeChar(t[0]) by {
      assert head[1..] == if t[0] == '~' then "0" else "";
      assert "0"[1..] == "";
    }
  }

  lemma ReplaceHead(c: char, rest: string)
    ensures Replace(EscapeChar(c) + rest, '~', '1', '/') ==
            (if c == '~' then "~0" else [c]) + Replace(rest, '~', '1', '/')
  {
    var s := EscapeChar(c) + rest;
    if c == '~' {
      assert s[1..] == "0" + rest && ("0" + rest)[1..] == rest;
    } else if c == '/' {
      assert s[2..] == rest;
    } else {
      assert s[1..] == rest;
    }
  }

  /** Undoing the slashes first leaves the tildes as they were escaped. */
  lemma {:induction false} SlashesUndone(t: string)
    ensures Replace(Escape(t), '~', '1', '/') == Expand(t, '~', '~', '0')
  {
    hide Escape, EscapeChar;
    if t == "" {
      EmptyEscape();
    } else {
      SlashesUndone(t[1..]);
      EscapeHead(t);
      ReplaceHead(t[0], Escape(t[1..]));
    }
  }

  lemma EmptyEscape()
    ensures Escape("") == ""
  {
  }

  lemma ExpandHead(c: char, t: string)
    ensures Expand([c] + t, '/', '~', '1') == (if c == '/' then "~1" else [c]) + Expand(t, '/', '~', '1')
    ensures Expand("", '/', '~', '1') == ""
  {
    assert ([c] + t)[1..] == t;
  }

  lemma {:induction false} ExpandAppend(s: string, t: string)
    ensures Expand(s + t, '/', '~', '1') == Expand(s, '/', '~', '1') + Expand(t, '/', '~', '1')
  {
    hide Expand;
    if s == "" {
      ExpandHead('/', t);
      assert s + t == t;
    } else {
      ExpandAppend(s[1..], t);
      ExpandHead(s[0], s[1..]);
      ExpandHead(s[0], s[1..] + t);
      assert s == [s[0]] + s[1..] && s + t == [s[0]] + (s[1..] + t);
    }
  }

  lemma {:induction false} TildesUndone(t: string)
    ensures Replace(Expand(t, '~', '~', '0'), '~', '0', '~') == t
  {
    if t != "" {
      var rest := Expand(t[1..], '~', '~', '0');
      TildesUndone(t[1..]);
      if t[0] == '~' {
        assert Expand(t, '~', '~', '0') == "~0" + rest;
        assert ("~0" + rest)[2..] == rest;
      } else {
        assert Expand(t, '~', '~', '0')[1..] == rest;
      }
    }
  }

  /** Decoding in the order of section 4 of RFC 6901 undoes the encoding of every string. */
  lemma UnescapeUndoesEscape(t: string)
    ensures Unescape(Escape(t)) == t
  {
    SlashesUndone(t);
    TildesUndone(t);
  }

  /** In the other order it would not: the token "~1" comes back as "/". */
  lemma OtherOrderIsWrong()
    ensures Replace(Replace(Escape("~1"), '~', '0', '~'), '~', '1', '/') == "/"
  {
    assert Expand("~1", '~', '~', '0') == "~01" by {
      assert "~1"[1..] == "1" && "1"[1..] == "";
    }
    assert Escape("~1") == "~01" by {
      assert "~01"[1..] == "01" && "01"[1..] == "1" && "1"[1..] == "";
    }
    assert Replace("~01", '~', '0', '~') == "~1" by {
      assert "~01"[2..] == "1" && "1"[1..] == "";
    }
    assert "~1"[2..] == "";
  }

  // ---------------------------------------------------------------------------
  // Splitting
  // ---------------------------------------------------------------------------

  predicate SlashFree(s: string) {
    '/' !in s
  }

  lemma {:induction false} ExpandHasNoSlash(s: string)
    ensures SlashFree(Expand(s, '/', '~', '1'))
  {
    if s != "" {
      ExpandHasNoSlash(s[1..]);
    }
  }

  lemma {:induction false} ExpandIsEmptyOnlyOnEmpty(s: string, c: char, a: char, b: char)
    ensures Expand(s, c, a, b) == "" <==> s == ""
  {
  }

  lemma {:induction false} SplitToken(s: string, rest: string)
    requires SlashFree(s)
    ensures Split(s) == [s]
    ensures Split(s + "/" + rest) == [s] + Split(rest)
  {
    var whole := s + "/" + rest;
    if s == "" {
      assert whole[1..] == rest;
    } else {
      SplitToken(s[1..], rest);
      assert whole[1..] == s[1..] + "/" + rest;
      assert [s[0]] + s[1..] == s;
    }
  }

  lemma {:induction false} SplitUndoesJoin(parts: seq<string>)
    requires parts != [] && forall p :: p in parts ==> SlashFree(p)
    ensures Split(Join(parts)) == parts
  {
    if |parts| == 1 {
      SplitToken(parts[0], "");
    } else {
      var head, rest := parts[0], parts[1..];
      SplitToken(head, Join(rest));
      SplitUndoesJoin(rest);
      assert Join(parts) == head + "/" + Join(rest);
      assert [head] + rest == parts;
    }
  }

  lemma {:induction false} StrippingLosesTokens(s: string)
    ensures |Split(LStrip(s))| <= |Split(s)|
    ensures s != "" && s[0] == '/' ==> |Split(LStrip(s))| < |Split(s)|
  {
    if s != "" && s[0] == '/' {
      StrippingLosesTokens(s[1..]);
    }
  }

  lemma EscapedTokens(tokens: seq<string>)
    ensures forall p :: p in EscapeAll(tokens) ==> SlashFree(p)
    ensures UnescapeAll(EscapeAll(tokens)) == tokens
  {
    forall i | 0 <= i < |tokens|
      ensures SlashFree(Escape(tokens[i])) && Unescape(Escape(tokens[i])) == tokens[i]
    {
      ExpandHasNoSlash(Expand(tokens[i], '~', '~', '0'));
      UnescapeUndoesEscape(tokens[i]);
    }
  }

  /** Only an empty first token makes the joined text start with a slash, or vanish. */
  lemma JoinedStart(tokens: seq<string>)
    requires tokens != []
    ensures var text := Join(EscapeAll(tokens));
            if tokens[0] == "" then text == "" || text[0] == '/' else text != "" && text[0] != '/'
  {
    var parts := EscapeAll(tokens);
    ExpandIsEmptyOnlyOnEmpty(tokens[0], '~', '~', '0');
    ExpandIsEmptyOnlyOnEmpty(Expand(tokens[0], '~', '~', '0'), '/', '~', '1');
    EscapedTokens(tokens);
    assert parts[0] == Escape(tokens[0]) && SlashFree(parts[0]);
  }

  /** A token list survives being written as a pointer exactly when its first token, if any, is not empty. */
  lemma PointerRoundTrip(tokens: seq<string>)
    ensures SplitPointer(PointerTo(tokens)) == tokens <==> tokens == [] || tokens[0] != ""
  {
    hide Split, Join, Escape, Unescape;
    var parts, text := EscapeAll(tokens), Join(EscapeAll(tokens));
    var pointer := PointerTo(tokens);
    assert pointer[1..] == text && LStrip(pointer) == LStrip(text);
    if tokens == [] {
      EmptyPointer();
    } else {
      EscapedTokens(tokens);
      SplitUndoesJoin(parts);
      JoinedStart(tokens);
      if tokens[0] != "" {
        assert LStrip(text) == text && SplitPointer(pointer) == UnescapeAll(parts);
      } else if text == "" {
        assert SplitPointer(pointer) == [];
      } else {
        StrippingLosesTokens(text);
        assert |SplitPointer(pointer)| == |Split(LStrip(text))| < |tokens|;
      }
    }
  }

  lemma EmptyPointer()
    ensures PointerTo([]) == "/"
  {
  }

  /** One more leading slash makes no difference, unless the pointer was empty or "/", the whole document. */
  lemma LeadingSlashesAreDropped(pointer: string)
    ensures SplitPointer("") == SplitPointer("/") == []
    ensures pointer != "" && pointer != "/" ==> SplitPointer("/" + pointer) == SplitPointer(pointer)
  {
    assert ("/" + pointer)[1..] == pointer;
  }

  // ---------------------------------------------------------------------------
  // Decoding in one pass
  // ---------------------------------------------------------------------------

  /** Each `~1` and `~0` read from left to right; any other tilde stands for itself. */
  function Decode(s: string): string {
    if |s| >= 2 && s[0] == '~' && s[1] == '1' then "/" + Decode(s[2..])
    else if |s| >= 2 && s[0] == '~' && s[1] == '0' then "~" + Decode(s[2..])
    else if s != "" then [s[0]] + Decode(s[1..])
    else ""
  }

  lemma SlashPassHead(s: string)
    requires s != "" && !(|s| >= 2 && s[0] == '~' && s[1] == '1')
    ensures Replace(s, '~', '1', '/') == [s[0]] + Replace(s[1..], '~', '1', '/')
  {
  }

  lemma TildePassHead(c: char, rest: string)
    requires !(c == '~' && rest != "" && rest[0] == '0')
    ensures Replace([c] + rest, '~', '0', '~') == [c] + Replace(rest, '~', '0', '~')
  {
    assert ([c] + rest)[1..] == rest;
  }

  lemma TildePassPair(rest: string)
    ensures Replace("~0" + rest, '~', '0', '~') == "~" + Replace(rest, '~', '0', '~')
  {
    assert ("~0" + rest)[2..] == rest;
  }

  /** The slash pass never makes a zero, so it leaves one at the front only where one was. */
  lemma ZeroStays(s: string)
    requires s != ""
    ensures var t := Replace(s, '~', '1', '/'); t != "" && (t[0] == '0' <==> s[0] == '0')
  {
  }

  /** The two replacements, one after the other, decode every string as one pass from the left does. */
  lemma {:induction false} UnescapeIsOnePass(s: string)
    ensures Unescape(s) == Decode(s)
  {
    hide Replace;
    if s == "" {
      NothingIsReplaced();
    } else if |s| >= 2 && s[0] == '~' && s[1] == '1' {
      UnescapeIsOnePass(s[2..]);
      SlashPassPair(s);
      TildePassHead('/', Replace(s[2..], '~', '1', '/'));
    } else if |s| >= 2 && s[0] == '~' && s[1] == '0' {
      UnescapeIsOnePass(s[2..]);
      SlashPassHead(s);
      SlashPassHead(s[1..]);
      var rest := Replace(s[2..], '~', '1', '/');
      assert s[1..][1..] == s[2..];
      assert Replace(s, '~', '1', '/') == "~0" + rest;
      TildePassPair(rest);
    } else {
      UnescapeIsOnePass(s[1..]);
      SlashPassHead(s);
      if s[1..] != "" {
        ZeroStays(s[1..]);
      } else {
        NothingIsReplaced();
      }
      TildePassHead(s[0], Replace(s[1..], '~', '1', '/'));
    }
  }

  lemma SlashPassPair(s: string)
    requires |s| >= 2 && s[0] == '~' && s[1] == '1'
    ensures Replace(s, '~', '1', '/') == "/" + Replace(s[2..], '~', '1', '/')
  {
  }

  lemma NothingIsReplaced()
    ensures Replace("", '~', '1', '/') == "" && Replace("", '~', '0', '~') == ""
  {
  }
}
