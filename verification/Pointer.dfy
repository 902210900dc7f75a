/** RFC 6901 pointers as text, and what containment of the text says about the reference tokens. */
module Pointer {
  import opened Json

  /** str.replace of one character by a string. */
  function Replace(s: string, c: char, with: string): string {
    if s == [] then [] else (if s[0] == c then with else [s[0]]) + Replace(s[1..], c, with)
  }

  /** json_pointer_escape: the tilde first, then the solidus. */
  function Escape(segment: string): string {
    Replace(Replace(segment, '~', "~0"), '/', "~1")
  }

  /** str.replace of a two-character pattern, scanning left to right. */
  function ReplacePair(s: string, a: char, b: char, with: char): string {
    if |s| < 2 then s
    else if s[0] == a && s[1] == b then [with] + ReplacePair(s[2..], a, b, with)
    else [s[0]] + ReplacePair(s[1..], a, b, with)
  }

  /** Section 4 of RFC 6901: ~1 first, then ~0. */
  function Unescape(token: string): string {
    ReplacePair(ReplacePair(token, '~', '1', '/'), '~', '0', '~')
  }

  lemma {:induction false} SolidusUndone(s: string)
    requires forall i :: 0 <= i < |s| - 1 && s[i] == '~' ==> s[i + 1] == '0'
    requires s != [] ==> s[|s| - 1] != '~'
    ensures ReplacePair(Replace(s, '/', "~1"), '~', '1', '/') == s
    decreases |s|
  {
    if s != [] {
      SolidusUndone(s[1..]);
      var rest := Replace(s[1..], '/', "~1");
      if s[0] == '/' {
        assert Replace(s, '/', "~1") == "~1" + rest;
        assert ("~1" + rest)[2..] == rest;
      } else {
        assert Replace(s, '/', "~1") == [s[0]] + rest;
        assert ([s[0]] + rest)[1..] == rest;
        if s[0] == '~' {
          assert s[1] == '0' && rest[0] == '0';
        }
      }
    }
  }

  lemma {:induction false} TildesPaired(s: string)
    ensures var e := Replace(s, '~', "~0");
            && (forall i :: 0 <= i < |e| - 1 && e[i] == '~' ==> e[i + 1] == '0')
            && (e != [] ==> e[|e| - 1] != '~')
  {
    if s != [] {
      TildesPaired(s[1..]);
      var rest := Replace(s[1..], '~', "~0");
      assert Replace(s, '~', "~0") == (if s[0] == '~' then "~0" else [s[0]]) + rest;
    }
  }

  lemma {:induction false} TildeUndone(s: string)
    ensures ReplacePair(Replace(s, '~', "~0"), '~', '0', '~') == s
  {
    if s != [] {
      TildeUndone(s[1..]);
      var rest := Replace(s[1..], '~', "~0");
      if s[0] == '~' {
        assert Replace(s, '~', "~0") == "~0" + rest;
        assert ("~0" + rest)[2..] == rest;
      } else {
        assert Replace(s, '~', "~0") == [s[0]] + rest;
        assert ([s[0]] + rest)[1..] == rest;
      }
    }
  }

  /** Unescaping undoes escaping, on every string. */
  lemma UnescapeEscape(s: string)
    ensures Unescape(Escape(s)) == s
  {
    TildesPaired(s);
    SolidusUndone(Replace(s, '~', "~0"));
    TildeUndone(s);
  }

  lemma {:induction false} NoneLeft(s: string, c: char, with: string)
    requires c !in with
    ensures c !in Replace(s, c, with)
  {
    if s != [] {
      NoneLeft(s[1..], c, with);
    }
  }

  /** An escaped token holds no separator. */
  lemma EscapedHasNoSolidus(s: string)
    ensures '/' !in Escape(s)
  {
    NoneLeft(Replace(s, '~', "~0"), '/', "~1");
  }

  lemma {:induction false} ReplaceNothing(s: string, c: char, with: string)
    requires c !in s
    ensures Replace(s, c, with) == s
  {
    if s != [] {
      ReplaceNothing(s[1..], c, with);
    }
  }

  lemma NumeralNeedsNoEscape(s: string)
    requires IsNumeral(s)
    ensures Escape(s) == s
  {
    ReplaceNothing(s, '~', "~0");
    ReplaceNothing(s, '/', "~1");
  }

  // ---- Token lists ----------------------------------------------------------

  function Render(tokens: seq<string>): string {
    if tokens == [] then "" else "/" + Escape(tokens[0]) + Render(tokens[1..])
  }

  lemma {:induction false} RenderSnoc(tokens: seq<string>, t: string)
    ensures Render(tokens + [t]) == Render(tokens) + "/" + Escape(t)
  {
    if tokens == [] {
      assert [t][1..] == [];
    } else {
      assert (tokens + [t])[1..] == tokens[1..] + [t];
      RenderSnoc(tokens[1..], t);
    }
  }

  /** What _difference writes: the document root cannot be the empty string, so it becomes "/". */
  function Spell(tokens: seq<string>): string {
    if tokens == [] then "/" else Render(tokens)
  }

  /** pointer_is_within */
  predicate PointerIsWithin(pointer: string, root: string) {
    pointer == root || root + "/" <= pointer
  }

  /** Cutting a rendering at its first separator after the leading one. */
  lemma FirstSegments(e: string, r: string, f: string, q: string)
    requires '/' !in e && '/' !in f
    requires r == "" || r[0] == '/'
    requires q == "" || q[0] == '/'
    ensures e + r == f + q <==> e == f && r == q
    ensures q != "" ==> (f + q <= e + r <==> e == f && q <= r)
  {
    if q != "" && f + q <= e + r {
      PrefixCuts(e, r, f, q);
    }
    if e + r == f + q {
      if r == "" && q == "" {
        assert e + r == e && f + q == f;
      } else if q != "" {
        PrefixCuts(e, r, f, q);
      } else {
        PrefixCuts(f, q, e, r);
      }
    }
    if e == f && q <= r {
      assert forall i :: 0 <= i < |f + q| ==> (f + q)[i] == (e + r)[i];
    }
  }

  lemma PrefixCuts(e: string, r: string, f: string, q: string)
    requires '/' !in e && '/' !in f && q != "" && q[0] == '/'
    requires r == "" || r[0] == '/'
    requires f + q <= e + r
    ensures e == f && q <= r
  {
    assert (f + q)[|f|] == '/' && (e + r)[|f|] == '/';
    assert |f| >= |e|;
    assert forall i :: 0 <= i < |f| ==> f[i] == (f + q)[i] == (e + r)[i] && f[i] in f;
    assert r != "" ==> (e + r)[|e|] == '/';
    assert |f| == |e|;
    assert forall i :: 0 <= i < |e| ==> e[i] == (e + r)[i] == (f + q)[i] == f[i];
    assert e == f;
    assert q == (f + q)[|f|..] && r == (e + r)[|e|..];
  }

  lemma RenderStarts(tokens: seq<string>)
    ensures Render(tokens) == "" || Render(tokens)[0] == '/'
    ensures Render(tokens) == "" <==> tokens == []
  {
  }

  lemma {:induction false} RenderWithSeparator(root: seq<string>, tokens: seq<string>)
    ensures Render(root) + "/" <= Render(tokens) <==> root < tokens
    decreases |root|
  {
    hide Escape;
    RenderStarts(tokens);
    if root == [] {
      assert Render(root) + "/" == "/";
    } else if tokens != [] {
      FirstSolidus(root, tokens);
      RenderWithSeparator(root[1..], tokens[1..]);
      PrefixSplits(root, tokens);
    }
  }

  /** Past the first solidus, one token decides and the rest recurs. */
  lemma FirstSolidus(root: seq<string>, tokens: seq<string>)
    requires root != [] && tokens != []
    ensures Render(root) + "/" <= Render(tokens) <==> root[0] == tokens[0] && Render(root[1..]) + "/" <= Render(tokens[1..])
  {
    hide Escape, Render;
    var e, f := Escape(tokens[0]), Escape(root[0]);
    var r, q := Render(tokens[1..]), Render(root[1..]) + "/";
    EscapedHasNoSolidus(tokens[0]);
    EscapedHasNoSolidus(root[0]);
    RenderStarts(tokens[1..]);
    RenderStarts(root[1..]);
    EscapeInjective(tokens[0], root[0]);
    RenderCons(root, "/");
    RenderCons(tokens, "");
    FirstSegments(e, r, f, q);
    SlashPrefix(f + q, e + r);
  }

  lemma RenderCons(tokens: seq<string>, suffix: string)
    requires tokens != []
    ensures Render(tokens) + suffix == "/" + (Escape(tokens[0]) + (Render(tokens[1..]) + suffix))
    ensures suffix == "" ==> Render(tokens) == "/" + (Escape(tokens[0]) + Render(tokens[1..]))
  {
    hide Escape;
  }

  lemma SlashPrefix(a: string, b: string)
    ensures "/" + a <= "/" + b <==> a <= b
  {
    assert ("/" + a)[1..] == a && ("/" + b)[1..] == b;
    if "/" + a <= "/" + b {
      assert forall i :: 0 <= i < |a| ==> a[i] == ("/" + a)[i + 1] && b[i] == ("/" + b)[i + 1];
    }
  }

  lemma PrefixSplits(root: seq<string>, tokens: seq<string>)
    requires root != [] && tokens != []
    ensures root < tokens <==> root[0] == tokens[0] && root[1..] < tokens[1..]
  {
    if root[0] == tokens[0] && root[1..] < tokens[1..] {
      assert forall i :: 1 <= i < |root| ==> root[i] == root[1..][i - 1] && tokens[i] == tokens[1..][i - 1];
    }
  }

  lemma EscapeInjective(s: string, t: string)
    ensures Escape(s) == Escape(t) <==> s == t
  {
    UnescapeEscape(s);
    UnescapeEscape(t);
  }

  /** Rendering loses nothing. */
  lemma {:induction false} RenderInjective(a: seq<string>, b: seq<string>)
    ensures Render(a) == Render(b) <==> a == b
    decreases |a|
  {
    RenderStarts(a);
    RenderStarts(b);
    if a != [] && b != [] {
      EscapedHasNoSolidus(a[0]);
      EscapedHasNoSolidus(b[0]);
      RenderStarts(a[1..]);
      RenderStarts(b[1..]);
      FirstSegments(Escape(a[0]), Render(a[1..]), Escape(b[0]), Render(b[1..]));
      assert Render(a)[1..] == Escape(a[0]) + Render(a[1..]);
      assert Render(b)[1..] == Escape(b[0]) + Render(b[1..]);
      EscapeInjective(a[0], b[0]);
      RenderInjective(a[1..], b[1..]);
      assert a == [a[0]] + a[1..] && b == [b[0]] + b[1..];
    }
  }

  /** Containment of the text is the prefix order on tokens, for every pointer the diff can emit and
      every non-empty root, but for one collision: the root difference is spelled like the key "". */
  lemma WithinIsPrefix(tokens: seq<string>, root: seq<string>)
    requires root != []
    ensures PointerIsWithin(Spell(tokens), Render(root)) <==> root <= tokens || (tokens == [] && root == [""])
  {
    RenderInjective(tokens, root);
    RenderWithSeparator(root, tokens);
    if tokens == [] {
      RenderInjective([""], root);
      assert Render([""]) == "/" by { assert Escape("") == ""; assert [""][1..] == []; }
      RenderStarts(root);
      assert |Render(root) + "/"| > |Spell(tokens)|;
    }
  }

  /** Two emitted pointers are the same text only for the same tokens, or for the root and the key "". */
  lemma SpellInjective(a: seq<string>, b: seq<string>)
    ensures Spell(a) == Spell(b) <==> a == b || (a == [] && b == [""]) || (a == [""] && b == [])
  {
    RenderInjective(a, b);
    RenderInjective(a, [""]);
    RenderInjective([""], b);
    assert Render([""]) == "/" by { assert Escape("") == ""; assert [""][1..] == []; }
  }
}
