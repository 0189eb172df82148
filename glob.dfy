/** `fnmatch.fnmatch` on posix: case-sensitive shell-style matching of a whole
    name. `*` matches any run of characters, `/` included, and `?` matches any
    one character; every other pattern character matches itself. */
module Glob {

  predicate Matches(name: string, pat: string)
    decreases |name| + |pat|
  {
    if pat == [] then name == []
    else if pat[0] == '*' then
      Matches(name, pat[1..]) || (name != [] && Matches(name[1..], pat))
    else
      name != [] && (pat[0] == '?' || pat[0] == name[0]) && Matches(name[1..], pat[1..])
  }

  /** A pattern without wildcards matches exactly itself. */
  lemma {:induction false} LiteralMatchesItself(name: string, pat: string)
    requires forall i :: 0 <= i < |pat| ==> pat[i] != '*' && pat[i] != '?'
    ensures Matches(name, pat) <==> name == pat
  {
    if pat != [] && name != [] {
      LiteralMatchesItself(name[1..], pat[1..]);
      assert name == [name[0]] + name[1..];
      assert pat == [pat[0]] + pat[1..];
    }
  }

  /** `*` matches every name, including names holding `/`. */
  lemma {:induction false} StarMatchesAll(name: string)
    ensures Matches(name, "*")
  {
    if name != [] {
      StarMatchesAll(name[1..]);
    }
  }

  /** Matching is compositional: a name built from matches of two patterns
      matches their concatenation. */
  lemma {:induction false} MatchesConcat(n1: string, p1: string, n2: string, p2: string)
    requires Matches(n1, p1) && Matches(n2, p2)
    ensures Matches(n1 + n2, p1 + p2)
    decreases |n1| + |p1|
  {
    if p1 == [] {
      assert n1 == [];
      assert n1 + n2 == n2 && p1 + p2 == p2;
    } else if p1[0] == '*' {
      assert (p1 + p2)[0] == '*' && (p1 + p2)[1..] == p1[1..] + p2;
      if Matches(n1, p1[1..]) {
        MatchesConcat(n1, p1[1..], n2, p2);
      } else {
        MatchesConcat(n1[1..], p1, n2, p2);
        assert (n1 + n2)[1..] == n1[1..] + n2;
      }
    } else {
      MatchesConcat(n1[1..], p1[1..], n2, p2);
      assert (n1 + n2)[1..] == n1[1..] + n2;
      assert (p1 + p2)[1..] == p1[1..] + p2;
    }
  }

  /** A literal `/` in the pattern must be matched by a `/` in the name. */
  lemma {:induction false} SlashNeedsSlash(name: string, pat: string)
    requires '/' in pat && Matches(name, pat)
    ensures '/' in name
    decreases |name| + |pat|
  {
    if pat[0] == '*' {
      if Matches(name, pat[1..]) {
        assert pat == [pat[0]] + pat[1..];
        SlashNeedsSlash(name, pat[1..]);
      } else {
        SlashNeedsSlash(name[1..], pat);
        assert name == [name[0]] + name[1..];
      }
    } else if pat[0] == '/' {
      assert name[0] == '/';
    } else {
      assert pat == [pat[0]] + pat[1..];
      SlashNeedsSlash(name[1..], pat[1..]);
      assert name == [name[0]] + name[1..];
    }
  }

  /** The default allow glob for `.txt` files needs a `/`, so it rejects a
      file directly under the root. */
  lemma DefaultTxtGlobNeedsDirectory(name: string)
    requires '/' !in name
    ensures !Matches(name, "**/*.txt")
  {
    var pat := "**/*.txt";
    assert pat[2] == '/';
    if Matches(name, pat) {
      SlashNeedsSlash(name, pat);
    }
  }

  /** ... and accepts any `.txt` file one or more directories below it. */
  lemma DefaultTxtGlobBelow(dir: string, stem: string)
    ensures Matches(dir + "/" + stem + ".txt", "**/*.txt")
  {
    StarStarMatchesAll(dir);
    SlashStarTxt(stem);
    MatchesConcat(dir, "**", "/" + stem + ".txt", "/*.txt");
    assert dir + ("/" + stem + ".txt") == dir + "/" + stem + ".txt";
    assert "**" + "/*.txt" == "**/*.txt";
  }

  lemma StarStarMatchesAll(name: string)
    ensures Matches(name, "**")
  {
    StarMatchesAll(name);
    assert "**"[1..] == "*";
  }

  lemma SlashStarTxt(stem: string)
    ensures Matches("/" + stem + ".txt", "/*.txt")
  {
    var ext := ".txt";
    StarMatchesAll(stem);
    LiteralMatchesItself("/", "/");
    LiteralMatchesItself(ext, ext);
    MatchesConcat(stem, "*", ext, ext);
    MatchesConcat("/", "/", stem + ext, "*" + ext);
    assert "/" + (stem + ext) == "/" + stem + ".txt";
    assert "/" + ("*" + ext) == "/*.txt";
  }
}
