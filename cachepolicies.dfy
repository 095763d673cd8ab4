/** `CachePolicyManager`: cache policies stored under key patterns, and the
    lookup that picks, for a cache key, the highest-priority policy whose
    pattern matches it. A pattern other than "*" is a glob turned into the
    anchored regular expression `^...$`, where an escaped `*` becomes `.*` and
    an escaped `?` becomes `.`; every other character is literal. */
module CachePolicies {
  import opened Kernel

  /** `CachePolicy`, with its `TimeSpan?` expirations as whole seconds. */
  datatype CachePolicy = CachePolicy(
    memoryExpiration: Option<int>,
    distributedExpiration: Option<int>,
    slidingExpiration: Option<int>,
    skipMemoryCache: bool,
    skipDistributedCache: bool,
    priority: int)

  /** `CachePolicy.Default`: no expirations, no skips, priority 100. */
  const Default: CachePolicy := CachePolicy(None, None, None, false, false, 100)

  /** `CacheOptions`, with its expirations as whole seconds and a null region as `None`. */
  datatype CacheOptions = CacheOptions(
    absoluteExpirationRelativeToNow: Option<int>,
    slidingExpiration: Option<int>,
    region: Option<string>)

  /** `string.IsNullOrWhiteSpace`, with null written as the empty string. */
  predicate IsNullOrWhiteSpace(s: string)
  {
    forall i :: 0 <= i < |s| ==> IsWhiteSpace(s[i])
  }

  /** Whether the regular expression a glob translates to, without its
      anchors, matches the whole of `s`: `.` (from `*` and `?`) matches any
      character except a line feed, so a line feed in `s` must be matched by
      one in `p`. */
  predicate Glob(p: string, s: string)
    decreases |p| + |s|
    ensures Glob(p, s) && '\n' in s ==> '\n' in p
  {
    if p == [] then s == []
    else if p[0] == '*' then Glob(p[1..], s) || (s != [] && s[0] != '\n' && Glob(p, s[1..]))
    else s != [] && (if p[0] == '?' then s[0] != '\n' else s[0] == p[0]) && Glob(p[1..], s[1..])
  }

  /** `MatchesPattern(key, pattern)`. The final `$` of the regular expression
      also matches just before a line feed that ends the key. */
  predicate MatchesPattern(key: string, pattern: string)
    ensures MatchesPattern(key, pattern) && pattern != "*" && '\n' !in pattern ==>
              forall i :: 0 <= i < |key| - 1 ==> key[i] != '\n'
  {
    pattern == "*"
    || Glob(pattern, key)
    || (key != [] && key[|key| - 1] == '\n' && Glob(pattern, key[..|key| - 1]))
  }

  /** A pattern without wildcards. */
  predicate Literal(p: string)
  {
    forall i :: 0 <= i < |p| ==> p[i] != '*' && p[i] != '?'
  }

  lemma {:induction false} LiteralGlob(p: string, s: string)
    requires Literal(p)
    ensures Glob(p, s) <==> s == p
    decreases |p|
  {
    if p != [] && s != [] {
      assert Literal(p[1..]) by {
        forall i | 0 <= i < |p[1..]| ensures p[1..][i] != '*' && p[1..][i] != '?' {
          assert p[1..][i] == p[i + 1];
        }
      }
      LiteralGlob(p[1..], s[1..]);
      if s == p {
        assert s[1..] == p[1..];
      }
      if s[0] == p[0] && s[1..] == p[1..] {
        assert s == [s[0]] + s[1..] && p == [p[0]] + p[1..];
      }
    }
  }

  /** A pattern without wildcards matches only the key equal to it (or that
      key followed by one line feed, through `$`). */
  lemma LiteralPatternMatchesItself(key: string, pattern: string)
    requires Literal(pattern) && pattern != "*"
    ensures MatchesPattern(key, pattern) <==> key == pattern || key == pattern + "\n"
  {
    LiteralGlob(pattern, key);
    if key != [] {
      LiteralGlob(pattern, key[..|key| - 1]);
      if key == pattern + "\n" {
        assert key[..|key| - 1] == pattern;
      }
      if key[|key| - 1] == '\n' && key[..|key| - 1] == pattern {
        assert key == key[..|key| - 1] + [key[|key| - 1]];
      }
    }
  }

  lemma {:induction false} StarGlob(s: string)
    ensures Glob("*", s) <==> forall i :: 0 <= i < |s| ==> s[i] != '\n'
    decreases |s|
  {
    assert "*"[1..] == [];
    if s != [] {
      StarGlob(s[1..]);
      assert forall i :: 1 <= i < |s| ==> s[i] == s[1..][i - 1];
    }
  }

  /** `*` matches any run of characters, including none, that holds no line
      feed: a prefix followed by `*` matches exactly the keys that start with
      the prefix and have no line feed after it. */
  lemma {:induction false} PrefixStarGlob(q: string, s: string)
    requires Literal(q)
    ensures Glob(q + "*", s) <==>
              |q| <= |s| && s[..|q|] == q && forall i :: |q| <= i < |s| ==> s[i] != '\n'
    decreases |q|
  {
    if q == [] {
      assert q + "*" == "*";
      StarGlob(s);
    } else {
      var p := q + "*";
      assert p[0] == q[0] && p[1..] == q[1..] + "*";
      assert Literal(q[1..]) by {
        forall i | 0 <= i < |q[1..]| ensures q[1..][i] != '*' && q[1..][i] != '?' {
          assert q[1..][i] == q[i + 1];
        }
      }
      if s != [] {
        PrefixStarGlob(q[1..], s[1..]);
        if |q| <= |s| && s[..|q|] == q {
          assert s[1..][..|q| - 1] == q[1..];
        }
        if |q| - 1 <= |s| - 1 && s[1..][..|q| - 1] == q[1..] && s[0] == q[0] {
          assert s[..|q|] == [s[0]] + s[1..][..|q| - 1];
          assert q == [q[0]] + q[1..];
        }
        assert forall i :: |q| <= i < |s| ==> s[i] == s[1..][i - 1];
      }
    }
  }

  /** The pattern "*" matches every key, even one the glob `.*` would not
      match because of an inner line feed. */
  lemma StarMatchesEveryKey(key: string)
    ensures MatchesPattern(key, "*")
    ensures Glob("*", key) <==> forall i :: 0 <= i < |key| ==> key[i] != '\n'
  {
    StarGlob(key);
  }

  /** What `GetPolicy(key)` may answer for the patterns `policies`: for a
      blank key, or a key no pattern matches, the default policy; otherwise
      the policy of a matching pattern whose priority no other matching
      pattern exceeds. */
  ghost predicate Selects(policies: map<string, CachePolicy>, key: string, policy: CachePolicy)
    ensures Selects(policies, key, policy) ==> policy == Default || policy in policies.Values
  {
    && (IsNullOrWhiteSpace(key) ==> policy == Default)
    && (!IsNullOrWhiteSpace(key) && (forall k :: k in policies ==> !MatchesPattern(key, k)) ==>
          policy == Default)
    && (!IsNullOrWhiteSpace(key) && (exists k :: k in policies && MatchesPattern(key, k)) ==>
          && (exists k :: k in policies && MatchesPattern(key, k) && policies[k] == policy)
          && (forall k :: k in policies && MatchesPattern(key, k) ==> policies[k].priority <= policy.priority))
  }

  /** The `_policies` dictionary. */
  class CachePolicyManager {
    var policies: map<string, CachePolicy>

    constructor()
      ensures policies == map[]
    {
      policies := map[];
    }

    /** `SetPolicy`: a blank pattern is refused; otherwise the pattern's
        policy is added or replaced. */
    method SetPolicy(keyPattern: string, policy: CachePolicy) returns (error: Option<Exception>)
      modifies this
      ensures IsNullOrWhiteSpace(keyPattern) ==>
                error == Some(ArgumentError("keyPattern")) && policies == old(policies)
      ensures !IsNullOrWhiteSpace(keyPattern) ==>
                error == None && policies == old(policies)[keyPattern := policy]
    {
      if IsNullOrWhiteSpace(keyPattern) {
        return Some(ArgumentError("keyPattern"));
      }
      policies := policies[keyPattern := policy];
      error := None;
    }

    /** `RemovePolicy`: a blank pattern is ignored; otherwise the pattern is
        removed if present. */
    method RemovePolicy(keyPattern: string)
      modifies this
      ensures IsNullOrWhiteSpace(keyPattern) ==> policies == old(policies)
      ensures !IsNullOrWhiteSpace(keyPattern) ==> policies == old(policies) - {keyPattern}
    {
      if IsNullOrWhiteSpace(keyPattern) {
        return;
      }
      policies := policies - {keyPattern};
    }

    /** `GetPolicy`: the dictionary's enumeration order is unspecified, so
        the choice among equal priorities is too. */
    method GetPolicy(key: string) returns (policy: CachePolicy)
      ensures Selects(policies, key, policy)
    {
      if IsNullOrWhiteSpace(key) {
        return Default;
      }
      var remaining := policies.Keys;
      var best: Option<string> := None;
      while remaining != {}
        invariant remaining <= policies.Keys
        invariant best.Some? ==> best.value in policies && MatchesPattern(key, best.value)
        invariant forall k :: k in policies && k !in remaining && MatchesPattern(key, k) ==>
                    best.Some? && policies[k].priority <= policies[best.value].priority
        decreases remaining
      {
        var k :| k in remaining;
        if MatchesPattern(key, k) && (best.None? || policies[k].priority > policies[best.value].priority) {
          best := Some(k);
        }
        remaining := remaining - {k};
      }
      if best.Some? {
        policy := policies[best.value];
      } else {
        policy := Default;
      }
    }
  }
}
