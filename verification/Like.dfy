/**
 The LIKE operator (section 9.7.1 of the PostgreSQL 17 documentation) and the
 pattern `%name%` that the name filter binds (internal/domains/user/store/userdb/filter.go).
 */
module Like {

  const ANY_RUN := '%'
  const ANY_CHAR := '_'
  const ESCAPE := '\\'

  /** Whether the whole of `s` matches pattern `p`. A pattern cut off after an escape matches nothing. */
  predicate Matches(s: string, p: string)
    decreases |s| + |p|
  {
    if p == "" then s == ""
    else if p[0] == ANY_RUN then Matches(s, p[1..]) || (s != "" && Matches(s[1..], p))
    else if s == "" then false
    else if p[0] == ANY_CHAR then Matches(s[1..], p[1..])
    else if p[0] == ESCAPE then |p| > 1 && s[0] == p[1] && Matches(s[1..], p[2..])
    else s[0] == p[0] && Matches(s[1..], p[1..])
  }

  /** The database refuses a pattern that ends in an unpaired escape. */
  predicate Dangling(p: string) {
    if p == "" then false
    else if p[0] == ESCAPE then |p| == 1 || Dangling(p[2..])
    else Dangling(p[1..])
  }

  /** What `fmt.Sprintf("%%%s%%", name)` builds. */
  function Pattern(name: string): string {
    "%" + name + "%"
  }

  ghost predicate Contains(s: string, name: string) {
    exists i :: 0 <= i <= |s| && name <= s[i..]
  }

  predicate IsSpecial(c: char) { c == ANY_RUN || c == ANY_CHAR || c == ESCAPE }

  ghost predicate Plain(name: string) {
    forall i :: 0 <= i < |name| ==> !IsSpecial(name[i])
  }

  lemma {:induction false} RunAbsorbs(l: string, s: string, p: string)
    requires Matches(s, p)
    ensures Matches(l + s, [ANY_RUN] + p)
  {
    assert ([ANY_RUN] + p)[1..] == p;
    if l == "" {
      assert l + s == s;
    } else {
      assert (l + s)[1..] == l[1..] + s;
      RunAbsorbs(l[1..], s, p);
    }
  }

  lemma {:induction false} RunSplits(s: string, p: string) returns (k: nat)
    requires Matches(s, [ANY_RUN] + p)
    ensures k <= |s| && Matches(s[k..], p)
  {
    assert ([ANY_RUN] + p)[1..] == p;
    if Matches(s, p) {
      k := 0;
      assert s[0..] == s;
    } else {
      k := RunSplits(s[1..], p);
      k := k + 1;
      assert s[k..] == s[1..][k - 1..];
    }
  }

  /** A pattern without escapes matches its own text followed by anything, once a `%` ends it. */
  lemma {:induction false} LiteralMatches(name: string, rest: string)
    requires ESCAPE !in name
    ensures Matches(name + rest, name + "%")
  {
    if name == "" {
      assert name + rest == rest && name + "%" == "%";
      assert Matches("", "");
      RunAbsorbs(rest, "", "");
      assert rest + "" == rest && [ANY_RUN] + "" == "%";
    } else {
      assert (name + rest)[1..] == name[1..] + rest;
      assert (name + "%")[1..] == name[1..] + "%";
      LiteralMatches(name[1..], rest);
      if name[0] == ANY_RUN {
        var s, p := name + rest, name + "%";
        assert Matches(s[1..], p[1..]);
        RunAbsorbs([s[0]], s[1..], p[1..]);
        assert [s[0]] + s[1..] == s && [ANY_RUN] + p[1..] == p;
      }
    }
  }

  /** Any name without a backslash finds at least every row that literally contains it. */
  lemma LiteralAlwaysFound(s: string, name: string)
    requires ESCAPE !in name && Contains(s, name)
    ensures Matches(s, Pattern(name))
  {
    var i :| 0 <= i <= |s| && name <= s[i..];
    var rest := s[i..][|name|..];
    LiteralMatches(name, rest);
    RunAbsorbs(s[..i], name + rest, name + "%");
    assert s[..i] + (name + rest) == s;
    assert [ANY_RUN] + (name + "%") == Pattern(name);
  }

  /** If the closing `%` is not escaped, a match can go on. */
  lemma {:induction false} MatchGoesOn(s: string, name: string, rest: string)
    requires !Dangling(name) && Matches(s, name + "%")
    ensures Matches(s + rest, name + "%")
    decreases |s| + |name|
  {
    var p := name + "%";
    if name == "" {
      LiteralMatches(name, s + rest);
      assert name + (s + rest) == s + rest;
    } else {
      var k := if name[0] == ESCAPE then 2 else 1;
      assert p[k..] == name[k..] + "%" && p[..k] == name[..k];
      if name[0] == ANY_RUN && Matches(s, p[1..]) {
        MatchGoesOn(s, name[1..], rest);
      } else {
        assert (s + rest)[1..] == s[1..] + rest && (s + rest)[0] == s[0];
        MatchGoesOn(s[1..], if name[0] == ANY_RUN then name else name[k..], rest);
      }
    }
  }

  /** If it is escaped, it is the last character matched. */
  lemma {:induction false} EscapedEnd(s: string, name: string)
    requires Dangling(name) && Matches(s, name + "%")
    ensures s != "" && s[|s| - 1] == ANY_RUN && name[|name| - 1] == ESCAPE
    decreases |s| + |name|
  {
    var p := name + "%";
    if |name| == 1 && name[0] == ESCAPE {
      assert p == "\\%" && p[2..] == "";
    } else {
      var k := if name[0] == ESCAPE then 2 else 1;
      assert p[k..] == name[k..] + "%" && p[..k] == name[..k];
      if name[0] == ANY_RUN && Matches(s, p[1..]) {
        EscapedEnd(s, name[1..]);
      } else {
        EscapedEnd(s[1..], if name[0] == ANY_RUN then name else name[k..]);
      }
    }
  }

  /** A match of part of the name against its own pattern goes on around it. */
  lemma FoundAround(l: string, a: string, b: string, rest: string, name: string)
    requires !Dangling(name) && Matches(b, name + "%")
    ensures Matches((l + a) + (b + rest), Pattern(name))
  {
    MatchGoesOn(b, name, rest);
    RunAbsorbs(l + a, b + rest, name + "%");
    assert Pattern(name) == [ANY_RUN] + (name + "%");
  }

  lemma SelfMatchOpen(name: string)
    requires Matches(name, Pattern(name))
    ensures !Dangling(name)
  {
    assert Pattern(name) == [ANY_RUN] + (name + "%");
    var k := RunSplits(name, name + "%");
    if Dangling(name) {
      EscapedEnd(name[k..], name);
    }
  }

  lemma FoundInRow(s: string, name: string)
    requires Matches(name, Pattern(name)) && Contains(s, name)
    ensures Matches(s, Pattern(name))
  {
    SelfMatchOpen(name);
    assert Pattern(name) == [ANY_RUN] + (name + "%");
    var k := RunSplits(name, name + "%");
    var i :| 0 <= i <= |s| && name <= s[i..];
    var l, rest := s[..i], s[i..][|name|..];
    FoundAround(l, name[..k], name[k..], rest, name);
    Parts(s, l, name, k, rest);
  }

  lemma Parts(s: string, l: string, name: string, k: nat, rest: string)
    requires s == l + (name + rest) && k <= |name|
    ensures s == (l + name[..k]) + (name[k..] + rest)
  {
  }

  /** Every row that literally contains the name is found exactly when the name itself would be: a name
      without a backslash always, a name with one if its pattern still matches it. */
  lemma LiteralFoundExactly(name: string)
    ensures (forall s :: Contains(s, name) ==> Matches(s, Pattern(name))) <==> Matches(name, Pattern(name))
    ensures ESCAPE !in name ==> Matches(name, Pattern(name))
  {
    assert name <= name[0..];
    assert Contains(name, name);
    if Matches(name, Pattern(name)) {
      forall s | Contains(s, name)
        ensures Matches(s, Pattern(name))
      {
        FoundInRow(s, name);
      }
    }
    if ESCAPE !in name {
      LiteralAlwaysFound(name, name);
    }
  }

  /** Both happen: `\b` is always found, `a\b` is not found even in itself. */
  lemma BackslashNames()
    ensures Matches("\\b", Pattern("\\b")) && !Matches("a\\b", Pattern("a\\b"))
  {
  }

  lemma {:induction false} PlainPrefix(s: string, name: string)
    requires Plain(name) && Matches(s, name + "%")
    ensures name <= s
  {
    if name != "" {
      assert (name + "%")[1..] == name[1..] + "%";
      PlainPrefix(s[1..], name[1..]);
      assert name == [name[0]] + name[1..];
    }
  }

  lemma PlainMatchesContain(s: string, name: string)
    requires Plain(name) && Matches(s, Pattern(name))
    ensures Contains(s, name)
  {
    assert Pattern(name) == [ANY_RUN] + (name + "%");
    var k := RunSplits(s, name + "%");
    PlainPrefix(s[k..], name);
  }

  // ----- names that LIKE does not take literally

  /** A shortest-effort match of a pattern: runs match nothing, `_` matches an `x`, escapes are dropped. */
  function Sample(p: string): string {
    if p == "" then ""
    else if p[0] == ANY_RUN then Sample(p[1..])
    else if p[0] == ANY_CHAR then ['x'] + Sample(p[1..])
    else if p[0] == ESCAPE then if |p| == 1 then "" else [p[1]] + Sample(p[2..])
    else [p[0]] + Sample(p[1..])
  }

  lemma {:induction false} SampleMatches(p: string)
    requires !Dangling(p)
    ensures Matches(Sample(p), p)
  {
    if p != "" {
      var s := Sample(p);
      if p[0] == ESCAPE {
        SampleMatches(p[2..]);
        assert s[1..] == Sample(p[2..]);
      } else {
        SampleMatches(p[1..]);
        if p[0] != ANY_RUN {
          assert s[1..] == Sample(p[1..]);
        }
      }
    }
  }

  /** The closing `%` keeps the bound pattern well-formed: if escaped, it is the escaped character. */
  lemma {:induction false} NeverDangling(name: string)
    ensures !Dangling(name + "%")
  {
    if name != "" {
      if name[0] != ESCAPE {
        assert (name + "%")[1..] == name[1..] + "%";
        NeverDangling(name[1..]);
      } else if |name| > 1 {
        assert (name + "%")[2..] == name[2..] + "%";
        NeverDangling(name[2..]);
      }
    }
  }

  lemma {:induction false} SampleDiffers(name: string)
    ensures |Sample(name + "%")| <= |name|
    ensures !Plain(name) ==> Sample(name + "%") != name
  {
    var p := name + "%";
    if name == "" {
      assert p == "%" && p[1..] == "";
    } else if name[0] == ESCAPE {
      if |name| == 1 {
        assert p == "\\%" && p[2..] == "";
      } else {
        assert p[2..] == name[2..] + "%";
        SampleDiffers(name[2..]);
      }
    } else {
      assert p[1..] == name[1..] + "%";
      SampleDiffers(name[1..]);
      if !Plain(name) && !IsSpecial(name[0]) {
        assert !Plain(name[1..]);
        assert Sample(p)[1..] == Sample(p[1..]);
      }
    }
  }

  /** The bound pattern is always well-formed, and it means "contains the name" exactly for names
      free of `%`, `_` and backslash. */
  lemma LikeIsContainsExactly(name: string)
    ensures !Dangling(Pattern(name))
    ensures (forall s :: Matches(s, Pattern(name)) <==> Contains(s, name)) <==> Plain(name)
  {
    NeverDangling(name);
    assert Pattern(name)[1..] == name + "%";
    if Plain(name) {
      forall s
        ensures Matches(s, Pattern(name)) <==> Contains(s, name)
      {
        if Matches(s, Pattern(name)) { PlainMatchesContain(s, name); }
        if Contains(s, name) { LiteralAlwaysFound(s, name); }
      }
    } else {
      var s := Sample(Pattern(name));
      SampleMatches(Pattern(name));
      SampleDiffers(name);
      assert Matches(s, Pattern(name)) && !Contains(s, name);
    }
  }
}
