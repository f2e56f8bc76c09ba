/**
 * String helpers shared by the cache key schemes, the rule matcher and the
 * list filters. Kotlin compares strings as UTF-16 text; this model reads a
 * string as a sequence of characters and folds case on ASCII letters only.
 */
module Text {

  /** `sub` occurs in `s` starting at index `i`. */
  predicate OccursAt(s: string, sub: string, i: int)
  {
    0 <= i <= |s| - |sub| && s[i..i + |sub|] == sub
  }

  /** `s.contains(sub)`: some window of `s` equals `sub`; the empty string is in every string. */
  predicate Contains(s: string, sub: string)
  {
    exists i | 0 <= i <= |s| - |sub| :: OccursAt(s, sub, i)
  }

  /** A left-to-right search, the way `contains` is computed. */
  function Find(s: string, sub: string): (r: bool)
    ensures r <==> Contains(s, sub)
    decreases |s|
  {
    OccursAtStart(s, sub);
    if sub <= s then
      true
    else if |s| <= |sub| then
      ShortContains(s, sub);
      false
    else
      var rest := Find(s[1..], sub);
      assert forall i | OccursAt(s[1..], sub, i) :: OccursAt(s, sub, i + 1) by {
        forall i | OccursAt(s[1..], sub, i) ensures OccursAt(s, sub, i + 1) {
          assert s[1..][i..i + |sub|] == s[i + 1..i + 1 + |sub|];
        }
      }
      assert forall i | OccursAt(s, sub, i) :: OccursAt(s[1..], sub, i - 1) by {
        forall i | OccursAt(s, sub, i) ensures OccursAt(s[1..], sub, i - 1) {
          assert i != 0;
          assert s[1..][i - 1..i - 1 + |sub|] == s[i..i + |sub|];
        }
      }
      rest
  }

  /** An occurrence at index 0 is a prefix. */
  lemma OccursAtStart(s: string, sub: string)
    ensures OccursAt(s, sub, 0) <==> sub <= s
  {
    if sub <= s {
      assert s[0..|sub|] == sub;
    }
  }

  /** In a string no longer than `sub`, `sub` can only occur as the whole string. */
  lemma ShortContains(s: string, sub: string)
    requires |s| <= |sub|
    ensures Contains(s, sub) ==> sub <= s
  {
    if Contains(s, sub) {
      var i :| 0 <= i <= |s| - |sub| && OccursAt(s, sub, i);
      assert i == 0;
      OccursAtStart(s, sub);
    }
  }

  lemma ContainsSelf(s: string)
    ensures Contains(s, s)
  {
    assert OccursAt(s, s, 0);
  }

  lemma ContainsSuffix(s: string, t: string)
    ensures Contains(s + t, t)
  {
    assert (s + t)[|s|..|s| + |t|] == t;
    assert OccursAt(s + t, t, |s|);
  }

  lemma ContainsInPrefix(s: string, t: string, sub: string)
    requires Contains(s, sub)
    ensures Contains(s + t, sub)
  {
    var i :| 0 <= i <= |s| - |sub| && OccursAt(s, sub, i);
    assert (s + t)[i..i + |sub|] == s[i..i + |sub|];
    assert OccursAt(s + t, sub, i);
  }

  lemma ContainsInSuffix(s: string, t: string, sub: string)
    requires Contains(t, sub)
    ensures Contains(s + t, sub)
  {
    var i :| 0 <= i <= |t| - |sub| && OccursAt(t, sub, i);
    assert (s + t)[|s| + i..|s| + i + |sub|] == t[i..i + |sub|];
    assert OccursAt(s + t, sub, |s| + i);
  }

  /** ASCII lower-casing of one character. */
  function Lower(c: char): char
  {
    if 'A' <= c <= 'Z' then (c as int + 32) as char else c
  }

  function LowerAll(s: string): (r: string)
    ensures |r| == |s|
    ensures forall i :: 0 <= i < |s| ==> r[i] == Lower(s[i])
  {
    seq(|s|, i requires 0 <= i < |s| => Lower(s[i]))
  }

  /** `a.equals(b, ignoreCase = true)`. */
  predicate EqualsIgnoreCase(a: string, b: string)
  {
    LowerAll(a) == LowerAll(b)
  }

  /** `s.startsWith(p, ignoreCase = true)`. */
  predicate StartsWithIgnoreCase(s: string, p: string)
  {
    LowerAll(p) <= LowerAll(s)
  }

  /** `s.contains(sub, ignoreCase = true)`. */
  predicate ContainsIgnoreCase(s: string, sub: string)
  {
    Contains(LowerAll(s), LowerAll(sub))
  }

  /**
   * Kotlin's `Char.isWhitespace` on the JVM: Java's `isWhitespace` or
   * `isSpaceChar`, that is the controls U+0009 to U+000D and U+001C to
   * U+001F, the space separators (no-break spaces included) and the line
   * and paragraph separators.
   */
  predicate IsSpace(c: char)
  {
    || '\t' <= c <= '\r'
    || '\U{001C}' <= c <= '\U{001F}'
    || c == ' ' || c == '\U{00A0}' || c == '\U{1680}'
    || '\U{2000}' <= c <= '\U{200A}'
    || c == '\U{2028}' || c == '\U{2029}' || c == '\U{202F}' || c == '\U{205F}' || c == '\U{3000}'
  }

  /** A no-break space is blank, as `isBlank` has it. */
  lemma NoBreakSpaceIsBlank()
    ensures IsBlank("\U{00A0}") && !IsBlank("a\U{00A0}")
  {
    assert "a\U{00A0}"[0] == 'a';
  }

  /** `s.isBlank()`: nothing but whitespace (the empty string included). */
  predicate IsBlank(s: string)
  {
    forall i :: 0 <= i < |s| ==> IsSpace(s[i])
  }

  // ---------------------------------------------------------------------------
  // Decimal rendering of ids, as string templates render an Int.

  function DigitChar(d: nat): (c: char)
    requires d < 10
    ensures '0' <= c <= '9'
  {
    (48 + d) as char
  }

  predicate IsDigit(c: char)
  {
    '0' <= c <= '9'
  }

  function NatToString(n: nat): (r: string)
    ensures |r| >= 1
    ensures forall i :: 0 <= i < |r| ==> IsDigit(r[i])
    ensures n < 10 <==> |r| == 1
  {
    if n < 10 then [DigitChar(n)] else NatToString(n / 10) + [DigitChar(n % 10)]
  }

  /** The text of an Int in a string template (`"$id"`). */
  function IntToString(i: int): (r: string)
    ensures |r| >= 1
    ensures forall k :: 0 <= k < |r| ==> IsDigit(r[k]) || (k == 0 && r[k] == '-')
  {
    if i < 0 then "-" + NatToString(-i) else NatToString(i)
  }

  lemma {:induction false} NatToStringInjective(a: nat, b: nat)
    requires NatToString(a) == NatToString(b)
    ensures a == b
  {
    var sa, sb := NatToString(a), NatToString(b);
    if a < 10 || b < 10 {
      assert |sa| == 1 && |sb| == 1;
      assert a < 10 && b < 10;
      assert sa[0] == DigitChar(a) && sb[0] == DigitChar(b);
    } else {
      assert sa[..|sa| - 1] == NatToString(a / 10);
      assert sb[..|sb| - 1] == NatToString(b / 10);
      NatToStringInjective(a / 10, b / 10);
      assert sa[|sa| - 1] == DigitChar(a % 10);
      assert sb[|sb| - 1] == DigitChar(b % 10);
    }
  }

  lemma IntToStringSign(i: int)
    ensures IntToString(i)[0] == '-' <==> i < 0
  {
  }

  /** Distinct ids render to distinct texts, so id-based cache keys never collide. */
  lemma IntToStringInjective(a: int, b: int)
    requires IntToString(a) == IntToString(b)
    ensures a == b
  {
    IntToStringSign(a);
    IntToStringSign(b);
    if a < 0 {
      assert NatToString(-a) == IntToString(a)[1..];
      assert NatToString(-b) == IntToString(b)[1..];
      NatToStringInjective(-a, -b);
    } else {
      NatToStringInjective(a, b);
    }
  }

  lemma IntToStringColonFree(i: int)
    ensures ':' !in IntToString(i)
  {
    var r := IntToString(i);
    forall k | 0 <= k < |r| ensures r[k] != ':' { }
  }

  // ---------------------------------------------------------------------------
  // Key-segment reasoning.

  /**
   * A colon-terminated segment is a prefix of another colon-terminated text
   * exactly when the two segments are equal: `a:` never selects `ab:`.
   */
  lemma {:induction false} SegmentPrefix(p: string, q: string, rest: string)
    requires ':' !in p && ':' !in q
    ensures p + ":" <= q + ":" + rest <==> p == q
  {
    var lhs, rhs := p + ":", q + ":" + rest;
    if p == [] && q == [] {
    } else if p == [] {
      assert q[0] in q;
      assert lhs[0] != rhs[0];
    } else if q == [] {
      assert p[0] in p;
      assert lhs[0] != rhs[0];
    } else {
      SegmentPrefix(p[1..], q[1..], rest);
      assert lhs == [p[0]] + (p[1..] + ":");
      assert rhs == [q[0]] + (q[1..] + ":" + rest);
      ConsPrefix(p[0], p[1..] + ":", q[0], q[1..] + ":" + rest);
      assert ':' !in p[1..] && ':' !in q[1..] by {
        assert forall c | c in p[1..] :: c in p;
        assert forall c | c in q[1..] :: c in q;
      }
      assert p == [p[0]] + p[1..] && q == [q[0]] + q[1..];
    }
  }

  /** `SegmentPrefix` behind a common head. */
  lemma HeadSegmentPrefix(head: string, p: string, q: string, rest: string)
    requires ':' !in p && ':' !in q
    ensures head + p + ":" <= head + q + ":" + rest <==> p == q
  {
    assert head + p + ":" == head + (p + ":");
    assert head + q + ":" + rest == head + (q + ":" + rest);
    PrefixCancel(head, p + ":", q + ":" + rest);
    SegmentPrefix(p, q, rest);
  }

  lemma ConsPrefix(x: char, a: string, y: char, b: string)
    ensures [x] + a <= [y] + b <==> x == y && a <= b
  {
    if [x] + a <= [y] + b {
      assert ([x] + a)[0] == ([y] + b)[0];
      assert a == ([x] + a)[1..];
      assert b[..|a|] == ([y] + b)[1..|a| + 1];
    }
    if x == y && a <= b {
      assert ([y] + b)[..|a| + 1] == [x] + b[..|a|];
    }
  }

  lemma PrefixCancel(a: string, b: string, c: string)
    ensures a + b <= a + c <==> b <= c
  {
    if a + b <= a + c {
      assert b == (a + b)[|a|..] && (a + c)[|a|..|a| + |b|] == b;
      assert c[..|b|] == (a + c)[|a|..|a| + |b|];
    }
    if b <= c {
      assert (a + c)[..|a| + |b|] == a + c[..|b|];
    }
  }

  lemma PrefixOfConcat(a: string, b: string)
    ensures a <= a + b
  {
    assert (a + b)[..|a|] == a;
  }

  lemma PrefixTransitive(a: string, b: string, c: string)
    requires a <= b && b <= c
    ensures a <= c
  {
    assert c[..|a|] == b[..|a|];
  }

  // ---------------------------------------------------------------------------
  // Delimited lists: `split`, joining, and `replace`.

  /** The index of the first `c` in `s`. */
  function FirstIndex(s: string, c: char): (i: nat)
    requires c in s
    ensures i < |s| && s[i] == c && c !in s[..i]
  {
    if s[0] == c then 0 else 1 + FirstIndex(s[1..], c)
  }

  /** `s.split(sep)`: the pieces between separators, empty pieces included. */
  function SplitOn(s: string, sep: char): (parts: seq<string>)
    ensures |parts| >= 1
    ensures forall p | p in parts :: sep !in p
    decreases |s|
  {
    if sep !in s then [s]
    else
      var i := FirstIndex(s, sep);
      [s[..i]] + SplitOn(s[i + 1..], sep)
  }

  /** The pieces glued back with the separator between them. */
  function JoinWith(parts: seq<string>, sep: char): string
    requires |parts| >= 1
    decreases |parts|
  {
    if |parts| == 1 then parts[0] else parts[0] + [sep] + JoinWith(parts[1..], sep)
  }

  /** Splitting loses nothing: gluing the pieces back gives the original text. */
  lemma {:induction false} JoinSplit(s: string, sep: char)
    ensures JoinWith(SplitOn(s, sep), sep) == s
    decreases |s|
  {
    if sep in s {
      var i := FirstIndex(s, sep);
      var rest := SplitOn(s[i + 1..], sep);
      SplitOnFirst(s, sep);
      JoinWithCons(s[..i], rest, sep);
      JoinSplit(s[i + 1..], sep);
      assert s == s[..i] + [sep] + s[i + 1..];
    }
  }

  /** Splitting text that holds the separator: the piece before its first occurrence, then the split of the rest. */
  lemma SplitOnFirst(s: string, sep: char)
    requires sep in s
    ensures SplitOn(s, sep) == [s[..FirstIndex(s, sep)]] + SplitOn(s[FirstIndex(s, sep) + 1..], sep)
  {
  }

  /** Joining a piece in front of at least one more. */
  lemma JoinWithCons(p: string, rest: seq<string>, sep: char)
    requires |rest| >= 1
    ensures JoinWith([p] + rest, sep) == p + [sep] + JoinWith(rest, sep)
  {
    assert ([p] + rest)[1..] == rest;
  }

  /** Pieces free of the separator split back out of their join. */
  lemma {:induction false} SplitJoin(parts: seq<string>, sep: char)
    requires |parts| >= 1 && forall p | p in parts :: sep !in p
    ensures SplitOn(JoinWith(parts, sep), sep) == parts
    decreases |parts|
  {
    if |parts| > 1 {
      var rest := JoinWith(parts[1..], sep);
      var s := parts[0] + [sep] + rest;
      assert s[|parts[0]|] == sep;
      assert sep !in s[..|parts[0]|] by { assert s[..|parts[0]|] == parts[0]; }
      assert FirstIndex(s, sep) == |parts[0]| by { FirstIndexUnique(s, sep, |parts[0]|); }
      assert s[|parts[0]| + 1..] == rest;
      assert s[..|parts[0]|] == parts[0];
      SplitJoin(parts[1..], sep);
    }
  }

  lemma {:induction false} FirstIndexUnique(s: string, c: char, i: nat)
    requires i < |s| && s[i] == c && c !in s[..i]
    ensures FirstIndex(s, c) == i
    decreases |s|
  {
    if i > 0 {
      assert s[0] in s[..i];
      assert s[1..][..i - 1] == s[..i][1..];
      FirstIndexUnique(s[1..], c, i - 1);
    }
  }

  predicate NotBlank(s: string)
  {
    !IsBlank(s)
  }

  /** `s.replace(old, new)`: every non-overlapping occurrence, scanning from the left. */
  function ReplaceAll(s: string, target: string, repl: string): string
    requires |target| > 0
    decreases |s|
  {
    if |s| < |target| then s
    else if target <= s then repl + ReplaceAll(s[|target|..], target, repl)
    else [s[0]] + ReplaceAll(s[1..], target, repl)
  }

  /** Text that cannot start an occurrence of `target` passes through `replace` untouched. */
  lemma {:induction false} ReplaceSkips(x: string, y: string, target: string, repl: string)
    requires |target| > 0 && target[0] !in x
    ensures ReplaceAll(x + y, target, repl) == x + ReplaceAll(y, target, repl)
    decreases |x|
  {
    if x == [] {
      assert x + y == y;
    } else {
      var s := x + y;
      assert s[0] == x[0] && s[1..] == x[1..] + y;
      assert x[0] in x;
      assert !(target <= s) by { assert s[0] != target[0]; }
      assert forall c | c in x[1..] :: c in x;
      ReplaceSkips(x[1..], y, target, repl);
      if |s| < |target| {
        ReplaceShort(s, target, repl);
        ReplaceShort(y, target, repl);
      } else {
        var r := ReplaceAll(y, target, repl);
        assert ReplaceAll(s, target, repl) == [x[0]] + (x[1..] + r);
        assert [x[0]] + (x[1..] + r) == x + r;
      }
    }
  }

  lemma ReplaceShort(s: string, target: string, repl: string)
    requires |target| > 0 && |s| < |target|
    ensures ReplaceAll(s, target, repl) == s
  {
  }
}
