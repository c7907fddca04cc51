/**
 * The search for a free workspace slug: `base`, then `base-2`, `base-3`, and so
 * on, against the slugs one `LIKE 'base%'` query returns.
 */
module Slug {
  import opened Decimal

  /** SQL `LIKE`: `%` is any text, `_` any one character, and `\` makes the next character literal. */
  predicate Like(pattern: string, s: string)
    decreases |pattern| + |s|
  {
    if pattern == "" then s == ""
    else if pattern[0] == '%' then Like(pattern[1..], s) || (s != "" && Like(pattern, s[1..]))
    else if pattern[0] == '_' then s != "" && Like(pattern[1..], s[1..])
    else if pattern[0] == '\\' && |pattern| > 1 then s != "" && s[0] == pattern[1] && Like(pattern[2..], s[1..])
    else s != "" && s[0] == pattern[0] && Like(pattern[1..], s[1..])
  }

  lemma {:induction false} AnythingIsLikePercent(s: string)
    ensures Like("%", s)
  {
    assert "%"[1..] == "";
    if s != "" { AnythingIsLikePercent(s[1..]); }
  }

  /** `_` is any one character, and an escaped `%` is itself. */
  lemma WildcardsOfLike(s: string)
    ensures Like("_", s) <==> |s| == 1
    ensures Like("\\%", s) <==> s == "%"
  {
    assert "_"[1..] == "" && "\\%"[2..] == "";
    if |s| == 1 {
      assert s[1..] == "";
    }
  }

  lemma LikePercentMaySkip(pattern: string, s: string)
    requires pattern != "" && pattern[0] == '%' && s != "" && Like(pattern[1..], s[1..])
    ensures Like(pattern, s)
  {
    assert Like(pattern, s[1..]);
  }

  /** The pattern `base%` ends in an escaped `%`, not in a wildcard. */
  predicate EscapesLast(base: string) {
    base != "" &&
    if base[0] == '\\' then |base| == 1 || EscapesLast(base[2..]) else EscapesLast(base[1..])
  }

  lemma {:induction false} EscapingEndsInBackslash(base: string)
    requires EscapesLast(base)
    ensures base[|base| - 1] == '\\'
    decreases |base|
  {
    if |base| > 1 {
      EscapingEndsInBackslash(if base[0] == '\\' then base[2..] else base[1..]);
    }
  }

  /** An escaped `%` at the end is matched only by itself. */
  lemma {:induction false} EscapedPercentIsLiteral(base: string, s: string)
    requires EscapesLast(base) && Like(base + "%", s)
    ensures s != "" && s[|s| - 1] == '%'
    decreases |base| + |s|
  {
    var pattern := base + "%";
    assert pattern[0] == base[0] && pattern[1..] == base[1..] + "%";
    if base[0] == '%' {
      if Like(pattern[1..], s) {
        EscapedPercentIsLiteral(base[1..], s);
      } else {
        EscapedPercentIsLiteral(base, s[1..]);
      }
    } else if base[0] == '\\' {
      if |base| == 1 {
        assert pattern == "\\%" && pattern[2..] == "" && s[1..] == "";
      } else {
        assert pattern[2..] == base[2..] + "%" && pattern[1] == base[1];
        EscapedPercentIsLiteral(base[2..], s[1..]);
      }
    } else {
      EscapedPercentIsLiteral(base[1..], s[1..]);
    }
  }

  /** A trailing wildcard goes on matching whatever is added. */
  lemma {:induction false} WildcardAbsorbs(base: string, s: string, rest: string)
    requires !EscapesLast(base) && Like(base + "%", s)
    ensures Like(base + "%", s + rest)
    decreases |base| + |s|
  {
    var pattern := base + "%";
    if base == "" {
      assert pattern == "%";
      AnythingIsLikePercent(s + rest);
    } else {
      assert pattern[0] == base[0] && pattern[1..] == base[1..] + "%";
      if base[0] == '%' && Like(pattern[1..], s) {
        WildcardAbsorbs(base[1..], s, rest);
      } else {
        assert (s + rest)[0] == s[0] && (s + rest)[1..] == s[1..] + rest;
        if base[0] == '%' {
          WildcardAbsorbs(base, s[1..], rest);
        } else if base[0] == '\\' {
          assert pattern[2..] == base[2..] + "%" && pattern[1] == base[1];
          WildcardAbsorbs(base[2..], s[1..], rest);
        } else {
          WildcardAbsorbs(base[1..], s[1..], rest);
        }
      }
    }
  }

  /** A base the query finds is found with anything after it. */
  lemma FoundBasesAreFoundExtended(base: string, rest: string)
    requires Like(base + "%", base)
    ensures Like(base + "%", base + rest)
  {
    if EscapesLast(base) {
      EscapedPercentIsLiteral(base, base);
      EscapingEndsInBackslash(base);
      assert false;
    }
    WildcardAbsorbs(base, base, rest);
  }

  /** What `slugify` makes: lower-case letters, digits and hyphens. Every caller passes one. */
  predicate Slugified(base: string) {
    forall c | c in base :: 'a' <= c <= 'z' || '0' <= c <= '9' || c == '-'
  }

  lemma {:induction false} PlainBasesAreFound(base: string)
    requires '\\' !in base
    ensures Like(base + "%", base)
  {
    if base == "" {
      AnythingIsLikePercent("");
    } else {
      var pattern := base + "%";
      assert pattern[0] == base[0] && base[0] in base && pattern[1..] == base[1..] + "%";
      assert '\\' !in base[1..];
      PlainBasesAreFound(base[1..]);
      if base[0] == '%' {
        LikePercentMaySkip(pattern, base);
      }
    }
  }

  function Candidate(base: string, i: nat): string
    requires i >= 1
  {
    if i == 1 then base else base + "-" + Print(i)
  }

  lemma CandidatesDiffer(base: string, i: nat, j: nat)
    requires i >= 1 && j >= 1
    ensures Candidate(base, i) == Candidate(base, j) <==> i == j
  {
    PrintIsInjective(i, j);
    if i > 1 && j > 1 && Candidate(base, i) == Candidate(base, j) {
      var k := |base| + 1;
      assert Candidate(base, i)[k..] == Print(i) && Candidate(base, j)[k..] == Print(j);
    }
  }

  /** The names searched are the base, then the base with -2, -3 and so on, numbered in decimal. */
  lemma CandidatesAreNumbered(base: string, n: nat)
    requires n >= 1
    ensures Candidate(base, 1) == base
    ensures Candidate(base, 2) == base + "-2"
    ensures n >= 2 ==>
              && |Candidate(base, n)| > |base| + 1 && Candidate(base, n)[..|base| + 1] == base + "-"
              && (forall c | c in Candidate(base, n)[|base| + 1..] :: IsDigit(c))
              && Read(Candidate(base, n)[|base| + 1..]) == n
  {
    ReadOfPrint(n);
    assert Print(2) == "2";
    if n >= 2 {
      assert Candidate(base, n)[|base| + 1..] == Print(n);
    }
  }

  /** Pigeonhole: `n` candidates that are all taken need `n` taken slugs. */
  lemma {:induction false} TakenCandidatesAreFew(taken: set<string>, base: string, n: nat)
    requires forall k :: 1 <= k <= n ==> Candidate(base, k) in taken
    ensures n <= |taken|
  {
    if n > 0 {
      var last := Candidate(base, n);
      forall k | 1 <= k <= n - 1
        ensures Candidate(base, k) in taken - {last}
      {
        CandidatesDiffer(base, k, n);
      }
      TakenCandidatesAreFew(taken - {last}, base, n - 1);
    }
  }

  ghost predicate IsFirstFree(taken: set<string>, base: string, n: nat) {
    n >= 1 && Candidate(base, n) !in taken && forall k :: 1 <= k < n ==> Candidate(base, k) in taken
  }

  function Taken(slugs: set<string>, base: string): set<string> {
    set s | s in slugs && Like(base + "%", s)
  }

  /** The query's answer is as good as the whole table, for a base it finds. */
  lemma QueryFindsEveryClash(slugs: set<string>, base: string, n: nat)
    requires n >= 1 && Like(base + "%", base)
    ensures Candidate(base, n) in Taken(slugs, base) <==> Candidate(base, n) in slugs
  {
    var rest := if n == 1 then "" else "-" + Print(n);
    assert Candidate(base, n) == base + rest;
    FoundBasesAreFoundExtended(base, rest);
  }

  lemma FirstFreeInTable(slugs: set<string>, base: string, n: nat)
    requires IsFirstFree(Taken(slugs, base), base, n)
    ensures Like(base + "%", base) ==> IsFirstFree(slugs, base, n)
  {
    if Like(base + "%", base) {
      QueryFindsEveryClash(slugs, base, n);
    }
  }

  /**
   * Ends for every set of slugs, after at most one candidate more than there
   * are taken slugs, with the first free name in search order.
   */
  method UniqueSlug(slugs: set<string>, base: string) returns (r: string)
    ensures exists n: nat ::
              IsFirstFree(Taken(slugs, base), base, n) && r == Candidate(base, n) && n <= |Taken(slugs, base)| + 1
    ensures Like(base + "%", base) ==> exists n: nat :: IsFirstFree(slugs, base, n) && r == Candidate(base, n)
    ensures Like(base + "%", base) ==> r !in slugs
    ensures base !in slugs ==> r == base
  {
    var taken := set s | s in slugs && Like(base + "%", s);
    if base !in taken {
      assert Candidate(base, 1) == base && IsFirstFree(taken, base, 1);
      FirstFreeInTable(slugs, base, 1);
      return base;
    }
    var i := 2;
    while true
      invariant i >= 2
      invariant forall k :: 1 <= k < i ==> Candidate(base, k) in taken
      decreases |taken| + 2 - i
    {
      TakenCandidatesAreFew(taken, base, i - 1);
      var candidate := base + "-" + Print(i);
      assert candidate == Candidate(base, i);
      if candidate !in taken {
        assert IsFirstFree(taken, base, i);
        FirstFreeInTable(slugs, base, i);
        return candidate;
      }
      i := i + 1;
    }
  }

  /**
   * The search never hands out a slug in use, whatever slugs are taken, exactly
   * when the query for a base finds the base itself - as it does for every base
   * the callers make.
   */
  lemma FreeExactlyWhenFound(base: string)
    ensures (forall slugs, n :: IsFirstFree(Taken(slugs, base), base, n) ==> Candidate(base, n) !in slugs)
       <==> Like(base + "%", base)
    ensures '\\' !in base ==> Like(base + "%", base)
    ensures Slugified(base) ==> Like(base + "%", base)
  {
    if Like(base + "%", base) {
      forall slugs, n | IsFirstFree(Taken(slugs, base), base, n)
        ensures Candidate(base, n) !in slugs
      {
        QueryFindsEveryClash(slugs, base, n);
      }
    } else {
      assert Candidate(base, 1) == base && base !in Taken({base}, base);
      assert IsFirstFree(Taken({base}, base), base, 1);
    }
    if '\\' !in base {
      PlainBasesAreFound(base);
    }
  }

  /** Workspaces of one name opened one after another are numbered in order, leaving no gap. */
  lemma NumbersRunOn(slugs: set<string>, base: string, n: nat, r: string)
    requires IsFirstFree(slugs, base, n) && r == Candidate(base, n)
    requires Candidate(base, n + 1) !in slugs
    ensures IsFirstFree(slugs + {r}, base, n + 1)
  {
    CandidatesDiffer(base, n, n + 1);
  }
}
