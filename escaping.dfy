/**
 * `escape`: four `str.replace` passes, `&` first, then `<`, `>` and `"`.
 * The passes are shown to act character by character, which gives the
 * properties a caller relies on: no markup character survives, every other
 * character except `&` is kept, and decoding the entities restores the input.
 */
module Escaping {
  import opened Text

  /** `s.replace(c, rep)` for a one-character pattern. */
  function Replace(s: string, c: char, rep: string): string
  {
    if s == "" then "" else (if s[0] == c then rep else [s[0]]) + Replace(s[1..], c, rep)
  }

  /** The four `replace` passes of `escape`, in order, with the text each
      character is replaced by. */
  function Passes(s: string, amp: string, lt: string, gt: string, quot: string): string
  {
    Replace(Replace(Replace(Replace(s, '&', amp), '<', lt), '>', gt), '"', quot)
  }

  /** `escape(s)` as the source writes it. */
  function Escape(s: string): string
  {
    Passes(s, "&amp;", "&lt;", "&gt;", "&quot;")
  }

  /** What the four passes together make of one character. */
  function EscapeChar(c: char): string
  {
    match c
    case '&' => "&amp;"
    case '<' => "&lt;"
    case '>' => "&gt;"
    case '"' => "&quot;"
    case _ => [c]
  }

  predicate IsMarkup(c: char)
  {
    c == '<' || c == '>' || c == '"'
  }

  lemma {:induction false} ReplaceAppend(a: string, b: string, c: char, rep: string)
    ensures Replace(a + b, c, rep) == Replace(a, c, rep) + Replace(b, c, rep)
  {
    if a == "" {
      assert a + b == b;
    } else {
      assert (a + b)[0] == a[0] && (a + b)[1..] == a[1..] + b;
      ReplaceAppend(a[1..], b, c, rep);
    }
  }

  lemma {:induction false} ReplaceAbsent(s: string, c: char, rep: string)
    requires c !in s
    ensures Replace(s, c, rep) == s
  {
    if s != "" {
      ReplaceAbsent(s[1..], c, rep);
      assert s == [s[0]] + s[1..];
    }
  }

  lemma ReplaceOne(x: char, c: char, rep: string)
    ensures Replace([x], c, rep) == if x == c then rep else [x]
  {
    assert [x][1..] == "";
  }

  /** On one character the passes give that character's replacement, provided
      no replacement holds a character a later pass replaces. */
  lemma PassesOneChar(x: char, amp: string, lt: string, gt: string, quot: string)
    requires '<' !in amp && '>' !in amp && '"' !in amp && '>' !in lt && '"' !in lt && '"' !in gt
    ensures Passes([x], amp, lt, gt, quot)
            == if x == '&' then amp else if x == '<' then lt else if x == '>' then gt else if x == '"' then quot else [x]
  {
    ReplaceOne(x, '&', amp);
    if x == '&' {
      ReplaceAbsent(amp, '<', lt);
      ReplaceAbsent(amp, '>', gt);
      ReplaceAbsent(amp, '"', quot);
    } else {
      ReplaceOne(x, '<', lt);
      if x == '<' {
        ReplaceAbsent(lt, '>', gt);
        ReplaceAbsent(lt, '"', quot);
      } else {
        ReplaceOne(x, '>', gt);
        if x == '>' {
          ReplaceAbsent(gt, '"', quot);
        } else {
          ReplaceOne(x, '"', quot);
        }
      }
    }
  }

  /** The four passes on one character give `EscapeChar`: later passes never touch an earlier entity. */
  lemma EscapeOneChar(x: char)
    ensures Escape([x]) == EscapeChar(x)
  {
    PassesOneChar(x, "&amp;", "&lt;", "&gt;", "&quot;");
  }

  lemma EscapeAppend(a: string, b: string)
    ensures Escape(a + b) == Escape(a) + Escape(b)
  {
    ReplaceAppend(a, b, '&', "&amp;");
    var a1, b1 := Replace(a, '&', "&amp;"), Replace(b, '&', "&amp;");
    ReplaceAppend(a1, b1, '<', "&lt;");
    var a2, b2 := Replace(a1, '<', "&lt;"), Replace(b1, '<', "&lt;");
    ReplaceAppend(a2, b2, '>', "&gt;");
    var a3, b3 := Replace(a2, '>', "&gt;"), Replace(b2, '>', "&gt;");
    ReplaceAppend(a3, b3, '"', "&quot;");
  }

  /** The escaped text is the characters' escapes, one after another. */
  lemma EscapeCons(s: string)
    requires s != ""
    ensures Escape(s) == EscapeChar(s[0]) + Escape(s[1..])
  {
    assert s == [s[0]] + s[1..];
    EscapeAppend([s[0]], s[1..]);
    EscapeOneChar(s[0]);
  }

  /** No `<`, `>` or `"` survives escaping. */
  lemma {:induction false} EscapeHasNoMarkup(s: string)
    ensures forall k :: 0 <= k < |Escape(s)| ==> !IsMarkup(Escape(s)[k])
    decreases |s|
  {
    if s == "" {
      assert Escape(s) == "";
    } else {
      EscapeCons(s);
      EscapeHasNoMarkup(s[1..]);
      var e := Escape(s);
      var h := EscapeChar(s[0]);
      forall k | 0 <= k < |e| ensures !IsMarkup(e[k]) {
        if k >= |h| {
          assert e[k] == Escape(s[1..])[k - |h|];
        }
      }
    }
  }

  /** Text without `&`, `<`, `>` and `"` is left as it is. */
  lemma {:induction false} EscapeKeepsPlainText(s: string)
    requires forall k :: 0 <= k < |s| ==> s[k] != '&' && !IsMarkup(s[k])
    ensures Escape(s) == s
    decreases |s|
  {
    if s != "" {
      EscapeCons(s);
      EscapeKeepsPlainText(s[1..]);
      assert s == [s[0]] + s[1..];
    }
  }

  /** Decoding the four entities, left to right; any other character stands for itself. */
  function Unescape(s: string): string
    decreases |s|
  {
    if s == "" then ""
    else if StartsWith(s, "&amp;") then "&" + Unescape(s[5..])
    else if StartsWith(s, "&lt;") then "<" + Unescape(s[4..])
    else if StartsWith(s, "&gt;") then ">" + Unescape(s[4..])
    else if StartsWith(s, "&quot;") then "\"" + Unescape(s[6..])
    else [s[0]] + Unescape(s[1..])
  }

  /** An entity at the front of the text is decoded by the first step of `Unescape`. */
  lemma UnescapeEntity(c: char, rest: string)
    requires c == '&' || IsMarkup(c)
    ensures Unescape(EscapeChar(c) + rest) == [c] + Unescape(rest)
  {
    if c == '&' {
      UnescapeAmp(rest);
    } else if c == '<' {
      UnescapeLt(rest);
    } else if c == '>' {
      UnescapeGt(rest);
    } else {
      UnescapeQuot(rest);
    }
  }

  /** Text that differs from `e` at some position does not start with `e`. */
  lemma Differs(t: string, e: string, k: nat)
    requires k < |t| && k < |e| && t[k] != e[k]
    ensures !StartsWith(t, e)
  {
    if |e| <= |t| {
      assert t[..|e|][k] == t[k];
    }
  }

  lemma UnescapeAmp(rest: string)
    ensures Unescape("&amp;" + rest) == "&" + Unescape(rest)
  {
    var t := "&amp;" + rest;
    assert t[..5] == "&amp;" && t[5..] == rest;
  }

  lemma UnescapeLt(rest: string)
    ensures Unescape("&lt;" + rest) == "<" + Unescape(rest)
  {
    var t := "&lt;" + rest;
    Differs(t, "&amp;", 1);
    assert t[..4] == "&lt;" && t[4..] == rest;
  }

  lemma UnescapeGt(rest: string)
    ensures Unescape("&gt;" + rest) == ">" + Unescape(rest)
  {
    var t := "&gt;" + rest;
    Differs(t, "&amp;", 1);
    Differs(t, "&lt;", 1);
    assert t[..4] == "&gt;" && t[4..] == rest;
  }

  lemma UnescapeQuot(rest: string)
    ensures Unescape("&quot;" + rest) == "\"" + Unescape(rest)
  {
    var t := "&quot;" + rest;
    Differs(t, "&amp;", 1);
    Differs(t, "&lt;", 1);
    Differs(t, "&gt;", 1);
    assert t[..6] == "&quot;" && t[6..] == rest;
  }

  /** A character other than `&` stands for itself. */
  lemma UnescapePlain(c: char, rest: string)
    requires c != '&'
    ensures Unescape([c] + rest) == [c] + Unescape(rest)
  {
    var t := [c] + rest;
    Differs(t, "&amp;", 0);
    Differs(t, "&lt;", 0);
    Differs(t, "&gt;", 0);
    Differs(t, "&quot;", 0);
    assert t[0] == c && t[1..] == rest;
  }

  lemma UnescapeChar(c: char, rest: string)
    ensures Unescape(EscapeChar(c) + rest) == [c] + Unescape(rest)
  {
    if c == '&' || IsMarkup(c) {
      UnescapeEntity(c, rest);
    } else {
      UnescapePlain(c, rest);
    }
  }

  /** Because `&` is replaced first, decoding the entities restores the input. */
  lemma {:induction false} UnescapeEscape(s: string)
    ensures Unescape(Escape(s)) == s
    decreases |s|
  {
    if s == "" {
      assert Escape(s) == "";
    } else {
      EscapeCons(s);
      UnescapeChar(s[0], Escape(s[1..]));
      UnescapeEscape(s[1..]);
      assert s == [s[0]] + s[1..];
    }
  }
}
