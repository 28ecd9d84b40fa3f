/** The few `java.lang.String` operations the converter relies on, with their Java
    semantics made explicit: `trim`, `+` on a possibly-null left operand, `endsWith`,
    an ASCII-only `toLowerCase`, and `split("\\.")`. */
module JavaStrings {
  import opened Faults

  /** `String.trim` removes every character at or below U+0020 from both ends. */
  predicate IsBlank(c: char) {
    c <= ' '
  }

  predicate AllBlank(s: string) {
    forall i :: 0 <= i < |s| ==> IsBlank(s[i])
  }

  /** A string `trim` leaves unchanged: empty, or non-blank at both ends. */
  predicate IsTrimmed(s: string) {
    s == [] || (!IsBlank(s[0]) && !IsBlank(s[|s| - 1]))
  }

  function TrimStart(s: string): string {
    if |s| > 0 && IsBlank(s[0]) then TrimStart(s[1..]) else s
  }

  function TrimEnd(s: string): string {
    if |s| > 0 && IsBlank(s[|s| - 1]) then TrimEnd(s[..|s| - 1]) else s
  }

  /** Java's `String.trim()`. */
  function Trim(s: string): string {
    TrimEnd(TrimStart(s))
  }

  lemma {:induction false} TrimStartSkipsBlanks(pre: string, s: string)
    requires AllBlank(pre)
    ensures TrimStart(pre + s) == TrimStart(s)
  {
    if pre != [] {
      assert (pre + s)[0] == pre[0];
      assert (pre + s)[1..] == pre[1..] + s;
      assert AllBlank(pre[1..]) by {
        forall i | 0 <= i < |pre[1..]| ensures IsBlank(pre[1..][i]) { assert pre[1..][i] == pre[i + 1]; }
      }
      TrimStartSkipsBlanks(pre[1..], s);
    } else {
      assert pre + s == s;
    }
  }

  lemma {:induction false} TrimEndSkipsBlanks(s: string, post: string)
    requires AllBlank(post)
    ensures TrimEnd(s + post) == TrimEnd(s)
  {
    if post != [] {
      var n := |post|;
      assert (s + post)[..|s + post| - 1] == s + post[..n - 1];
      TrimEndSkipsBlanks(s, post[..n - 1]);
    } else {
      assert s + post == s;
    }
  }

  lemma {:induction false} TrimStartResult(s: string)
    ensures TrimStart(s) == [] || !IsBlank(TrimStart(s)[0])
    ensures exists pre :: AllBlank(pre) && s == pre + TrimStart(s)
  {
    if |s| > 0 && IsBlank(s[0]) {
      TrimStartResult(s[1..]);
      var pre :| AllBlank(pre) && s[1..] == pre + TrimStart(s[1..]);
      assert s == [s[0]] + pre + TrimStart(s);
      assert AllBlank([s[0]] + pre);
    } else {
      assert s == [] + TrimStart(s);
    }
  }

  lemma {:induction false} TrimEndResult(s: string)
    ensures TrimEnd(s) == [] || !IsBlank(TrimEnd(s)[|TrimEnd(s)| - 1])
    ensures exists post :: AllBlank(post) && s == TrimEnd(s) + post
    ensures TrimEnd(s) == [] || TrimEnd(s)[0] == s[0]
  {
    if |s| > 0 && IsBlank(s[|s| - 1]) {
      var n := |s|;
      TrimEndResult(s[..n - 1]);
      var post :| AllBlank(post) && s[..n - 1] == TrimEnd(s[..n - 1]) + post;
      assert s == TrimEnd(s) + (post + [s[n - 1]]);
      assert AllBlank(post + [s[n - 1]]);
    } else {
      assert s == TrimEnd(s) + [];
    }
  }

  /** `trim` yields a trimmed string, obtained from its input by removing only
      blank characters at the two ends. */
  lemma TrimCharacterized(s: string)
    ensures IsTrimmed(Trim(s))
    ensures exists pre, post :: AllBlank(pre) && AllBlank(post) && s == pre + Trim(s) + post
  {
    TrimStartResult(s);
    TrimEndResult(TrimStart(s));
    var pre :| AllBlank(pre) && s == pre + TrimStart(s);
    var post :| AllBlank(post) && TrimStart(s) == Trim(s) + post;
    assert s == pre + Trim(s) + post;
  }

  /** The converse: surrounding a trimmed string with blanks and trimming gives it back.
      So a query text is recovered whatever indentation surrounds it in the markup. */
  lemma TrimPadded(pre: string, t: string, post: string)
    requires AllBlank(pre) && AllBlank(post) && IsTrimmed(t)
    ensures Trim(pre + t + post) == t
  {
    assert pre + t + post == pre + (t + post);
    TrimStartSkipsBlanks(pre, t + post);
    if t == [] {
      assert t + post == post + [];
      TrimStartSkipsBlanks(post, []);
      assert TrimStart(t + post) == [];
    } else {
      assert TrimStart(t + post) == t + post;
      TrimEndSkipsBlanks(t, post);
    }
  }

  /** Trimming twice is trimming once. */
  lemma TrimIdempotent(s: string)
    ensures Trim(Trim(s)) == Trim(s)
  {
    TrimCharacterized(s);
    TrimPadded([], Trim(s), []);
    assert [] + Trim(s) + [] == Trim(s);
  }

  /** Java's `a + b` where `a` may be null: a null operand is rendered as "null". */
  function Concat(a: Option<string>, b: string): (r: string)
    ensures EndsWith(r, b)
    ensures a.Some? ==> r == a.value + b
    ensures a.None? ==> r == "null" + b
  {
    match a
    case None => "null" + b
    case Some(v) => v + b
  }

  /** `String.endsWith`, character by character. */
  predicate EndsWith(s: string, suffix: string) {
    |suffix| <= |s| && s[|s| - |suffix|..] == suffix
  }

  /** `Character.toLowerCase` restricted to ASCII letters. */
  function LowerChar(c: char): char {
    if 'A' <= c <= 'Z' then (c as int + 32) as char else c
  }

  /** `String.toLowerCase` restricted to ASCII letters. */
  function Lower(s: string): (r: string)
    ensures |r| == |s|
    ensures forall i :: 0 <= i < |s| ==> r[i] == LowerChar(s[i])
  {
    seq(|s|, i requires 0 <= i < |s| => LowerChar(s[i]))
  }

  /** The pieces of `s` between '.' separators, empty pieces included
      (what `split("\\.", -1)` returns). */
  function Tokens(s: string): (r: seq<string>)
    ensures |r| >= 1
  {
    if s == [] then [[]]
    else
      var rest := Tokens(s[1..]);
      if s[0] == '.' then [[]] + rest else [[s[0]] + rest[0]] + rest[1..]
  }

  /** Drops the empty strings at the end of a split result. */
  function DropTrailingEmpty(parts: seq<string>): seq<string> {
    if parts != [] && parts[|parts| - 1] == [] then DropTrailingEmpty(parts[..|parts| - 1]) else parts
  }

  /** `s.split("\\.")`: when no '.' occurs the whole string is the only element (even
      when it is empty); otherwise the pieces with the trailing empty ones removed. */
  function SplitOnDot(s: string): seq<string> {
    if '.' !in s then [s] else DropTrailingEmpty(Tokens(s))
  }

  /** The characters of `s` before its first '.', all of `s` when it has none. */
  function PrefixBeforeDot(s: string): string {
    if s == [] || s[0] == '.' then [] else [s[0]] + PrefixBeforeDot(s[1..])
  }

  predicate AllDots(s: string) {
    forall i :: 0 <= i < |s| ==> s[i] == '.'
  }

  lemma {:induction false} TokensHead(s: string)
    ensures Tokens(s)[0] == PrefixBeforeDot(s)
  {
    if s != [] && s[0] != '.' {
      TokensHead(s[1..]);
    }
  }

  lemma {:induction false} TokensAllEmpty(s: string)
    ensures (forall k :: 0 <= k < |Tokens(s)| ==> Tokens(s)[k] == []) <==> AllDots(s)
  {
    if s != [] {
      TokensAllEmpty(s[1..]);
      var rest := Tokens(s[1..]);
      if s[0] == '.' {
        assert Tokens(s) == [[]] + rest;
        assert (forall k :: 0 <= k < |Tokens(s)| ==> Tokens(s)[k] == [])
            <==> (forall k :: 0 <= k < |rest| ==> rest[k] == []) by {
          if forall k :: 0 <= k < |rest| ==> rest[k] == [] {
            forall k | 0 <= k < |Tokens(s)| ensures Tokens(s)[k] == [] {
              if k > 0 { assert Tokens(s)[k] == rest[k - 1]; }
            }
          }
          if forall k :: 0 <= k < |Tokens(s)| ==> Tokens(s)[k] == [] {
            forall k | 0 <= k < |rest| ensures rest[k] == [] { assert rest[k] == Tokens(s)[k + 1]; }
          }
        }
        assert AllDots(s) <==> AllDots(s[1..]) by {
          if AllDots(s) {
            forall i | 0 <= i < |s[1..]| ensures s[1..][i] == '.' { assert s[1..][i] == s[i + 1]; }
          }
          if AllDots(s[1..]) {
            forall i | 0 <= i < |s| ensures s[i] == '.' {
              if i > 0 { assert s[i] == s[1..][i - 1]; }
            }
          }
        }
      } else {
        assert Tokens(s)[0] != [];
        assert !AllDots(s);
      }
    }
  }

  lemma {:induction false} DropTrailingEmptyIsPrefix(parts: seq<string>)
    ensures |DropTrailingEmpty(parts)| <= |parts|
    ensures DropTrailingEmpty(parts) == parts[..|DropTrailingEmpty(parts)|]
    ensures DropTrailingEmpty(parts) == [] <==> forall k :: 0 <= k < |parts| ==> parts[k] == []
  {
    if parts != [] && parts[|parts| - 1] == [] {
      var init := parts[..|parts| - 1];
      DropTrailingEmptyIsPrefix(init);
      assert forall k :: 0 <= k < |init| ==> init[k] == parts[k];
    }
  }

  /** `s.split("\\.")[0]` faults exactly when `s` is a non-empty run of dots, and is
      otherwise the text before the first '.' (all of `s` when there is no '.'). */
  lemma SplitOnDotFirst(s: string)
    ensures |SplitOnDot(s)| == 0 <==> |s| > 0 && AllDots(s)
    ensures |SplitOnDot(s)| > 0 ==> SplitOnDot(s)[0] == PrefixBeforeDot(s)
  {
    TokensHead(s);
    if '.' !in s {
      NoDotPrefix(s);
      assert |s| > 0 ==> s[0] != '.';
    } else {
      TokensAllEmpty(s);
      DropTrailingEmptyIsPrefix(Tokens(s));
    }
  }

  lemma {:induction false} NoDotPrefix(s: string)
    requires '.' !in s
    ensures PrefixBeforeDot(s) == s
  {
    if s != [] {
      assert s[0] != '.';
      NoDotPrefix(s[1..]);
      assert s == [s[0]] + s[1..];
    }
  }
}
