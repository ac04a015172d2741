/** Worktree slugs and tmux session names: everything here is derived from
  * the lower-case `[a-z0-9]+` tokens of a free-text value. */
module WorktreeNaming {
  import opened Text
  import opened ScopePaths

  // --------------------------------------------------------------- tokens

  /** A character of the slug token pattern `[a-z0-9]`. */
  predicate IsSlugChar(c: char) {
    ('a' <= c <= 'z') || ('0' <= c <= '9')
  }

  predicate IsToken(t: string) {
    |t| > 0 && forall i :: 0 <= i < |t| ==> IsSlugChar(t[i])
  }

  /** Slug characters or the `-` that joins tokens. */
  predicate IsSlugText(s: string) {
    forall i :: 0 <= i < |s| ==> IsSlugChar(s[i]) || s[i] == '-'
  }

  /** Neither starts nor ends with `-`. */
  predicate NoEdgeDash(s: string) {
    s == [] || (s[0] != '-' && s[|s| - 1] != '-')
  }

  /** The length of the run of slug characters `s` starts with. */
  function LeadingRun(s: string): (n: nat)
    ensures n <= |s|
    ensures forall i :: 0 <= i < n ==> IsSlugChar(s[i])
    ensures n < |s| ==> !IsSlugChar(s[n])
    decreases |s|
  {
    if |s| == 0 || !IsSlugChar(s[0]) then 0 else 1 + LeadingRun(s[1..])
  }

  /** `FindAllString(s, -1)` for the pattern `[a-z0-9]+`: the maximal runs of
    * slug characters, left to right. */
  function Tokens(s: string): (ts: seq<string>)
    ensures forall i :: 0 <= i < |ts| ==> IsToken(ts[i])
    decreases |s|
  {
    if |s| == 0 then []
    else if !IsSlugChar(s[0]) then Tokens(s[1..])
    else
      var n := LeadingRun(s);
      [s[..n]] + Tokens(s[n..])
  }

  lemma {:induction false} LeadingRunOf(a: string, b: string)
    requires forall i :: 0 <= i < |a| ==> IsSlugChar(a[i])
    requires b == [] || !IsSlugChar(b[0])
    ensures LeadingRun(a + b) == |a|
    decreases |a|
  {
    if |a| > 0 {
      assert (a + b)[1..] == a[1..] + b;
      LeadingRunOf(a[1..], b);
    } else {
      assert a + b == b;
    }
  }

  /** Tokenising the `-`-join of tokens gives the tokens back. */
  lemma {:induction false} TokensOfJoin(ts: seq<string>)
    requires forall i :: 0 <= i < |ts| ==> IsToken(ts[i])
    ensures Tokens(Join(ts, "-")) == ts
    decreases |ts|
  {
    if |ts| == 1 {
      LeadingRunOf(ts[0], "");
      assert ts[0] + "" == ts[0];
      assert ts[0][|ts[0]|..] == [];
    } else if |ts| > 1 {
      var rest := Join(ts[1..], "-");
      var j := ts[0] + "-" + rest;
      LeadingRunOf(ts[0], "-" + rest);
      assert j == ts[0] + ("-" + rest);
      assert j[..|ts[0]|] == ts[0];
      assert j[|ts[0]|..] == "-" + rest;
      assert ("-" + rest)[1..] == rest;
      TokensOfJoin(ts[1..]);
      assert [ts[0]] + ts[1..] == ts;
    }
  }

  /** The `-`-join of tokens is slug text with no `-` at either end, and is
    * empty only when there are no tokens. */
  lemma {:induction false} JoinShape(ts: seq<string>)
    requires forall i :: 0 <= i < |ts| ==> IsToken(ts[i])
    ensures IsSlugText(Join(ts, "-")) && NoEdgeDash(Join(ts, "-"))
    ensures Join(ts, "-") == [] <==> ts == []
    decreases |ts|
  {
    if |ts| > 1 {
      JoinShape(ts[1..]);
      var j := ts[0] + "-" + Join(ts[1..], "-");
      assert j[0] == ts[0][0];
    }
  }

  // ------------------------------------------------------------ stopwords

  predicate IsStopword(t: string) {
    t in {"a", "an", "the", "to", "for", "of", "and", "or", "in", "on", "with", "by", "from", "at", "is", "are"}
  }

  /** The tokens that are not stopwords, in order. */
  function NonStop(ts: seq<string>): (r: seq<string>)
    ensures |r| <= |ts|
    ensures forall i :: 0 <= i < |r| ==> r[i] in ts && !IsStopword(r[i])
    ensures r == [] <==> forall i :: 0 <= i < |ts| ==> IsStopword(ts[i])
  {
    if ts == [] then []
    else
      var init := NonStop(ts[..|ts| - 1]);
      assert forall i :: 0 <= i < |ts| - 1 ==> ts[..|ts| - 1][i] == ts[i];
      if IsStopword(ts[|ts| - 1]) then init else init + [ts[|ts| - 1]]
  }

  /** Filtering more tokens only extends the filtered list. */
  lemma {:induction false} NonStopPrefix(ts: seq<string>, i: nat, j: nat)
    requires i <= j <= |ts|
    ensures |NonStop(ts[..i])| <= |NonStop(ts[..j])|
    ensures NonStop(ts[..j])[..|NonStop(ts[..i])|] == NonStop(ts[..i])
    decreases j - i
  {
    if i < j {
      NonStopPrefix(ts, i, j - 1);
      assert ts[..j][..j - 1] == ts[..j - 1];
    }
  }

  /** A list of non-stopwords filters to itself. */
  lemma {:induction false} NonStopKeeps(ts: seq<string>)
    requires forall i :: 0 <= i < |ts| ==> !IsStopword(ts[i])
    ensures NonStop(ts) == ts
    decreases |ts|
  {
    if ts != [] {
      NonStopKeeps(ts[..|ts| - 1]);
      assert ts[..|ts| - 1] + [ts[|ts| - 1]] == ts;
    }
  }

  function Min(a: int, b: int): int {
    if a < b then a else b
  }

  /** The tokens a slug keeps: the first two non-stopwords, or, when every
    * token is a stopword, the first two tokens. */
  function Pick(ts: seq<string>): (r: seq<string>)
    ensures |r| <= 2
    ensures r == [] <==> ts == []
    ensures NonStop(ts) != [] ==> r == NonStop(ts)[..Min(2, |NonStop(ts)|)]
    ensures NonStop(ts) == [] ==> r == ts[..Min(2, |ts|)]
    ensures (forall i :: 0 <= i < |ts| ==> IsToken(ts[i])) ==> forall i :: 0 <= i < |r| ==> IsToken(r[i])
  {
    var f := NonStop(ts);
    if f != [] then f[..Min(2, |f|)] else ts[..Min(2, |ts|)]
  }

  /** Picking from a picked list changes nothing. */
  lemma PickFixed(ts: seq<string>)
    ensures Pick(Pick(ts)) == Pick(ts)
  {
    var p := Pick(ts);
    if NonStop(ts) != [] {
      NonStopKeeps(p);
    }
  }

  // ---------------------------------------------------------------- slugs

  /** `name`, or the default `d` when `name` is empty. */
  function OrName(name: string, d: string): (r: string)
    ensures name != "" ==> r == name
    ensures name == "" ==> r == d
  {
    if name == "" then d else name
  }

  /** What `normalizeSlugCandidate` returns: the picked tokens of the
    * trimmed, lower-cased value joined with `-`. */
  function Slug(value: string): (r: string)
    ensures IsSlugText(r) && NoEdgeDash(r)
    ensures r == "" <==> Tokens(Canon(value)) == []
  {
    var p := Pick(Tokens(Canon(value)));
    JoinShape(p);
    Join(p, "-")
  }

  /** Where the scan of `NormalizeSlugCandidate` stops (at the end, or at the
    * second kept token), its result with the fallback is `Pick`. */
  lemma PickAfterScan(ts: seq<string>, i: nat)
    requires i <= |ts|
    requires |NonStop(ts[..i])| <= 2
    requires i == |ts| || |NonStop(ts[..i])| == 2
    ensures var f := NonStop(ts[..i]);
      (if f == [] then ts[..Min(2, |ts|)] else f) == Pick(ts)
  {
    var f := NonStop(ts[..i]);
    if i == |ts| {
      assert ts[..i] == ts;
      if f != [] {
        assert f[..Min(2, |f|)] == f;
      }
    } else {
      NonStopPrefix(ts, i, |ts|);
      assert ts[..|ts|] == ts;
      assert NonStop(ts) != [];
    }
  }

  /** `normalizeSlugCandidate`: scans the tokens, skipping stopwords and
    * stopping at the second kept one; falls back to the first two tokens. */
  method NormalizeSlugCandidate(value: string) returns (r: string)
    ensures r == Slug(value)
  {
    var tokens := Tokens(Canon(value));
    if |tokens| == 0 {
      return "";
    }
    var filtered: seq<string> := [];
    var i := 0;
    while i < |tokens| && |filtered| < 2
      invariant 0 <= i <= |tokens|
      invariant filtered == NonStop(tokens[..i])
      invariant |filtered| <= 2
    {
      assert tokens[..i + 1][..i] == tokens[..i];
      if !IsStopword(tokens[i]) {
        filtered := filtered + [tokens[i]];
      }
      i := i + 1;
    }
    PickAfterScan(tokens, i);
    if |filtered| == 0 {
      filtered := tokens[..Min(2, |tokens|)];
    }
    r := Join(filtered, "-");
  }

  /** A slug has no white space and no upper case. */
  lemma SlugCanonical(s: string)
    requires IsSlugText(s) && NoEdgeDash(s)
    ensures Canon(s) == s
  {
    assert s == [] || (!IsSpace(s[0]) && !IsSpace(s[|s| - 1])) by {
      if s != [] {
        assert IsSlugChar(s[0]) && IsSlugChar(s[|s| - 1]);
      }
    }
    TrimSpaceUnchanged(s);
    assert ToLower(s) == s by {
      forall i | 0 <= i < |s|
        ensures ToLowerChar(s[i]) == s[i]
      {
        assert IsSlugChar(s[i]) || s[i] == '-';
      }
    }
  }

  /** `normalizeSlugCandidate` is idempotent. */
  lemma SlugIdempotent(value: string)
    ensures Slug(Slug(value)) == Slug(value)
  {
    var p := Pick(Tokens(Canon(value)));
    SlugCanonical(Slug(value));
    TokensOfJoin(p);
    PickFixed(Tokens(Canon(value)));
  }

  lemma WorkIsSlug()
    ensures Slug("work") == "work"
  {
    SlugCanonical("work");
    TokensOfJoin(["work"]);
    assert Join(["work"], "-") == "work";
    assert Tokens(Canon("work")) == ["work"];
    assert NonStop(["work"]) == ["work"] by {
      NonStopKeeps(["work"]);
    }
  }

  /** Normalising ignores surrounding white space. */
  lemma SlugOfTrimmed(value: string)
    ensures Slug(TrimSpace(value)) == Slug(value)
  {
    TrimSpaceIdempotent(value);
  }

  /** A normalised value, or "work" when it has no token. */
  function SlugOrWork(value: string): (r: string)
    ensures r != "" && IsSlugText(r) && NoEdgeDash(r)
    ensures r == OrName(Slug(value), "work")
  {
    assert IsSlugText("work") && NoEdgeDash("work");
    OrName(Slug(value), "work")
  }

  /** `deriveWorktreeSlug`: the preferred value if it is not blank, else the
    * fallback; "work" when the chosen value is blank or has no token. */
  function DeriveWorktreeSlug(preferred: string, fallback: string): (r: string)
    ensures r != "" && IsSlugText(r) && NoEdgeDash(r)
    ensures IsBlank(preferred) && IsBlank(fallback) ==> r == "work"
    ensures !IsBlank(preferred) ==> r == SlugOrWork(TrimSpace(preferred))
    ensures IsBlank(preferred) && !IsBlank(fallback) ==> r == SlugOrWork(TrimSpace(fallback))
  {
    TrimSpaceBlank(preferred);
    TrimSpaceBlank(fallback);
    var candidate := TrimSpace(preferred);
    if candidate != "" then SlugOrWork(candidate)
    else
      var second := TrimSpace(fallback);
      if second == "" then "work" else SlugOrWork(second)
  }

  /** A value normalised (or defaulted to "work") normalises to itself. */
  lemma SlugOrWorkFixpoint(value: string)
    ensures Slug(SlugOrWork(value)) == SlugOrWork(value)
  {
    if Slug(value) == "" {
      WorkIsSlug();
    } else {
      SlugIdempotent(value);
    }
  }

  /** A derived slug is already normalised. */
  lemma DerivedSlugIsFixpoint(preferred: string, fallback: string)
    ensures Slug(DeriveWorktreeSlug(preferred, fallback)) == DeriveWorktreeSlug(preferred, fallback)
  {
    if !IsBlank(preferred) {
      SlugOrWorkFixpoint(TrimSpace(preferred));
    } else if !IsBlank(fallback) {
      SlugOrWorkFixpoint(TrimSpace(fallback));
    } else {
      WorkIsSlug();
    }
  }

  /** `slugWithSuffix`: attempt 0 (or less) is the normalised base, attempt
    * n > 0 is the base followed by "-" and n + 1. */
  function SlugWithSuffix(base: string, attempt: int): (r: string)
    ensures attempt <= 0 ==> r == OrName(Slug(base), "work")
    ensures attempt > 0 ==> r == OrName(Slug(base), "work") + "-" + NatToString(attempt + 1)
  {
    var normalizedBase := OrName(Slug(base), "work");
    if attempt <= 0 then normalizedBase else normalizedBase + "-" + IntToString(attempt + 1)
  }

  /** Different attempts give different slugs, so the 64 candidates of an
    * allocation loop are pairwise distinct. */
  lemma SlugWithSuffixDistinct(base: string, a: int, b: int)
    requires 0 <= a < b
    ensures SlugWithSuffix(base, a) != SlugWithSuffix(base, b)
  {
    var nb := OrName(Slug(base), "work");
    if a > 0 && SlugWithSuffix(base, a) == SlugWithSuffix(base, b) {
      var sa := NatToString(a + 1);
      var sb := NatToString(b + 1);
      assert nb + "-" + sa == nb + "-" + sb;
      assert sa == (nb + "-" + sa)[|nb| + 1..];
      assert sb == (nb + "-" + sb)[|nb| + 1..];
      NatToStringInjective(a + 1, b + 1);
    }
  }

  /** Attempt 0 of a derived slug is the slug itself. */
  lemma FirstAttemptIsDerivedSlug(preferred: string, fallback: string)
    ensures SlugWithSuffix(DeriveWorktreeSlug(preferred, fallback), 0) == DeriveWorktreeSlug(preferred, fallback)
  {
    DerivedSlugIsFixpoint(preferred, fallback);
  }

  // ----------------------------------------------------------- tmux names

  function TrimLeftDash(s: string): (r: string)
    ensures |r| <= |s| && r == s[|s| - |r|..]
    ensures r == [] || r[0] != '-'
    ensures |s| > 0 && s[0] != '-' ==> r == s
    decreases |s|
  {
    if |s| > 0 && s[0] == '-' then TrimLeftDash(s[1..]) else s
  }

  function TrimRightDash(s: string): (r: string)
    ensures |r| <= |s| && r == s[..|r|]
    ensures r == [] || r[|r| - 1] != '-'
    ensures forall k :: 0 <= k < |s| && s[k] != '-' ==> k < |r|
    decreases |s|
  {
    if |s| > 0 && s[|s| - 1] == '-' then TrimRightDash(s[..|s| - 1]) else s
  }

  /** `strings.Trim(s, "-")`. */
  function TrimDashes(s: string): (r: string)
    ensures |r| <= |s| && NoEdgeDash(r)
    ensures IsSlugText(s) ==> IsSlugText(r)
    ensures |s| > 0 && s[0] != '-' ==> r == s[..|r|] && |r| > 0
  {
    TrimRightDash(TrimLeftDash(s))
  }

  /** The `if len(s) > 80 { s = strings.Trim(s[:80], "-") }` cut both tmux
    * names go through. */
  function CutTo80(s: string): (r: string)
    ensures |r| <= 80
    ensures IsSlugText(s) ==> IsSlugText(r)
    ensures NoEdgeDash(s) ==> NoEdgeDash(r)
    ensures |s| <= 80 ==> r == s
    ensures |s| > 0 && s[0] != '-' ==> |r| > 0
  {
    if |s| > 80 then TrimDashes(s[..80]) else s
  }

  /** The cut never shortens a leading part that ends in a non-dash. */
  lemma CutKeepsPrefix(s: string, p: string)
    requires 0 < |p| <= 80 && HasPrefix(s, p) && p[0] != '-' && p[|p| - 1] != '-'
    ensures HasPrefix(CutTo80(s), p)
  {
    if |s| > 80 {
      var head := s[..80];
      assert head[|p| - 1] == p[|p| - 1];
      assert head[..|p|] == p;
    }
  }

  /** `sanitizeTmuxName`: the tokens joined with `-`, cut to 80 characters
    * with dangling dashes trimmed. */
  function SanitizeTmuxName(value: string): (r: string)
    ensures |r| <= 80 && IsSlugText(r) && NoEdgeDash(r)
    ensures r == "" <==> Tokens(Canon(value)) == []
    ensures |Join(Tokens(Canon(value)), "-")| <= 80 ==> r == Join(Tokens(Canon(value)), "-")
  {
    var parts := Tokens(Canon(value));
    JoinShape(parts);
    if |parts| == 0 then ""
    else
      CutTo80(Join(parts, "-"))
  }

  /** The sanitised base name of a path, or the default `d`. */
  function ViewerPart(path: string, d: string): (r: string)
    requires d == "repo" || d == "worktree"
    ensures r != "" && |r| <= 80 && IsSlugText(r) && NoEdgeDash(r)
    ensures r == OrName(SanitizeTmuxName(PathBase(path)), d)
  {
    DefaultPartsAreNames();
    OrName(SanitizeTmuxName(PathBase(path)), d)
  }

  /** The two fallback parts are themselves valid tmux name parts. */
  lemma DefaultPartsAreNames()
    ensures IsSlugText("repo") && NoEdgeDash("repo") && IsSlugText("worktree") && NoEdgeDash("worktree")
  {
    var repo, tree := "repo", "worktree";
    assert repo[0] == 'r' && repo[3] == 'o' && tree[0] == 'w' && tree[7] == 'e';
    assert forall i :: 0 <= i < |repo| ==> IsSlugChar(repo[i]);
    assert forall i :: 0 <= i < |tree| ==> IsSlugChar(tree[i]);
  }

  /** Joining two tmux name parts with `-` and cutting the result. */
  lemma JoinedPartsCut(repo: string, tree: string)
    requires repo != "" && |repo| <= 80 && IsSlugText(repo) && NoEdgeDash(repo)
    requires tree != "" && IsSlugText(tree) && NoEdgeDash(tree)
    ensures var cut := CutTo80(repo + "-" + tree);
      0 < |cut| <= 80 && IsSlugText(cut) && NoEdgeDash(cut) && HasPrefix(cut, repo)
      && (|repo| + 1 + |tree| <= 80 ==> cut == repo + "-" + tree)
  {
    var joined := repo + "-" + tree;
    assert joined[0] == repo[0];
    assert joined[|joined| - 1] == tree[|tree| - 1];
    assert joined[..|repo|] == repo;
    CutKeepsPrefix(joined, repo);
  }

  /** `buildViewerTmuxSessionName`: "<repo>-<worktree>" from the sanitised
    * base names ("repo" and "worktree" when those are empty), cut to 80
    * characters. The repository part always survives the cut. */
  function BuildViewerTmuxSessionName(repoPath: string, worktreePath: string): (r: string)
    ensures 0 < |r| <= 80 && IsSlugText(r) && NoEdgeDash(r)
    ensures var repo := ViewerPart(repoPath, "repo");
      var tree := ViewerPart(TrimSpace(worktreePath), "worktree");
      HasPrefix(r, repo) && (|repo| + 1 + |tree| <= 80 ==> r == repo + "-" + tree)
  {
    var repositoryName := ViewerPart(repoPath, "repo");
    var worktreeName := ViewerPart(TrimSpace(worktreePath), "worktree");
    JoinedPartsCut(repositoryName, worktreeName);
    var sessionName := CutTo80(repositoryName + "-" + worktreeName);
    if sessionName == "" then "repo-worktree" else sessionName
  }
}
