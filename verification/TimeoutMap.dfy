/** The URL patterns of timeout.go: matchPattern and matchURL. */
module TimeoutMap {
  predicate HasPrefix(s: string, prefix: string) {
    prefix <= s
  }

  predicate HasSuffix(s: string, suffix: string) {
    |suffix| <= |s| && s[|s| - |suffix|..] == suffix
  }

  function TrimPrefix(s: string, prefix: string): string {
    if HasPrefix(s, prefix) then s[|prefix|..] else s
  }

  function TrimSuffix(s: string, suffix: string): string {
    if HasSuffix(s, suffix) then s[..|s| - |suffix|] else s
  }

  /** The parts of s between its slashes. */
  function Split(s: string): (parts: seq<string>)
    ensures |parts| >= 1
  {
    if s == "" then [""] else Prepend(s[0], Split(s[1..]))
  }

  /** One more character in front of the parts. */
  function Prepend(c: char, parts: seq<string>): (longer: seq<string>)
    requires |parts| >= 1
    ensures |longer| >= 1
  {
    if c == '/' then [""] + parts else [[c] + parts[0]] + parts[1..]
  }

  function Join(parts: seq<string>): string
    requires |parts| >= 1
  {
    if |parts| == 1 then parts[0] else parts[0] + "/" + Join(parts[1..])
  }

  predicate SlashFree(part: string) {
    '/' !in part
  }

  predicate AllSlashFree(parts: seq<string>) {
    forall i :: 0 <= i < |parts| ==> SlashFree(parts[i])
  }

  predicate SegmentsMatch(pattern: seq<string>, path: seq<string>) {
    |pattern| == |path| &&
    forall i :: 0 <= i < |pattern| ==> pattern[i] == "*" || pattern[i] == path[i]
  }

  /** The segments between the slashes, after one leading slash. */
  function Segments(s: string): seq<string> {
    Split(TrimPrefix(s, "/"))
  }

  /** The reading in which every star stands for one segment. */
  predicate SegmentWise(pattern: string, path: string) {
    SegmentsMatch(Segments(pattern), Segments(path))
  }

  predicate MatchPattern(pattern: string, path: string) {
    if pattern == path then true
    else if HasSuffix(pattern, "/*") && !HasSuffix(pattern, "**") then
      HasPrefix(path, TrimSuffix(pattern, "*"))
    else if HasSuffix(pattern, "**") then
      HasPrefix(path, TrimSuffix(pattern, "**"))
    else
      SegmentWise(pattern, path)
  }

  // ----- Split and Join are inverse -----

  lemma {:induction false} JoinOfSplit(s: string)
    ensures Join(Split(s)) == s && AllSlashFree(Split(s))
  {
    if s != "" {
      var rest := Split(s[1..]);
      JoinOfSplit(s[1..]);
      if s[0] == '/' {
        assert ([""] + rest)[1..] == rest;
      } else {
        var parts := [[s[0]] + rest[0]] + rest[1..];
        assert parts[1..] == rest[1..];
        assert Join(parts) == [s[0]] + Join(rest);
      }
    }
  }

  lemma SplitOfPrepended(c: char, s: string)
    ensures Split([c] + s) == Prepend(c, Split(s))
  {
    assert ([c] + s)[1..] == s;
  }

  lemma PrependToMore(c: char, parts: seq<string>, more: seq<string>)
    requires |parts| >= 1
    ensures Prepend(c, parts + more) == Prepend(c, parts) + more
  {
    assert (parts + more)[1..] == parts[1..] + more;
  }

  lemma {:induction false} SplitAtSlash(head: string, s: string)
    ensures Split(head + "/" + s) == Split(head) + Split(s)
  {
    if head == "" {
      assert head + "/" + s == ['/'] + s;
      SplitOfPrepended('/', s);
    } else {
      var c, tail := head[0], head[1..];
      assert head == [c] + tail && head + "/" + s == [c] + (tail + "/" + s);
      SplitAtSlash(tail, s);
      SplitOfPrepended(c, tail);
      SplitOfPrepended(c, tail + "/" + s);
      PrependToMore(c, Split(tail), Split(s));
    }
  }

  lemma {:induction false} SplitOfSlashFree(part: string)
    requires SlashFree(part)
    ensures Split(part) == [part]
  {
    if part != "" {
      SplitOfSlashFree(part[1..]);
      assert [part[0]] + part[1..] == part;
    }
  }

  lemma {:induction false} SplitOfJoin(parts: seq<string>)
    requires |parts| >= 1 && AllSlashFree(parts)
    ensures Split(Join(parts)) == parts
  {
    if |parts| == 1 {
      SplitOfSlashFree(parts[0]);
    } else {
      SplitOfJoin(parts[1..]);
      SplitOfSlashFree(parts[0]);
      SplitAtSlash(parts[0], Join(parts[1..]));
    }
  }

  // ----- What a pattern means -----

  /** The segments with each "*" replaced by the string chosen for its place. */
  function Fill(pattern: seq<string>, choice: seq<string>): seq<string>
    requires |choice| == |pattern|
  {
    seq(|pattern|, i requires 0 <= i < |pattern| => if pattern[i] == "*" then choice[i] else pattern[i])
  }

  /** Substituting the choices for the "*" segments turns the pattern into the path, up to one
      leading slash on either. */
  ghost predicate TurnsInto(pattern: string, path: string, choice: seq<string>) {
    var segments := Segments(pattern);
    && |choice| == |segments|
    && AllSlashFree(choice)
    && Join(Fill(segments, choice)) == TrimPrefix(path, "/")
  }

  /** A pattern that ends in neither wildcard suffix matches exactly the paths that some
      substitution of slash-free strings for its "*" segments turns it into. */
  lemma SegmentMatchIsSubstitution(pattern: string, path: string)
    requires !HasSuffix(pattern, "/*") && !HasSuffix(pattern, "**")
    ensures MatchPattern(pattern, path) <==> exists choice :: TurnsInto(pattern, path, choice)
  {
    var segments, parts := Segments(pattern), Segments(path);
    JoinOfSplit(TrimPrefix(pattern, "/"));
    JoinOfSplit(TrimPrefix(path, "/"));
    if MatchPattern(pattern, path) {
      assert Fill(segments, parts) == parts;
      assert TurnsInto(pattern, path, parts);
    }
    if choice :| TurnsInto(pattern, path, choice) {
      var filled := Fill(segments, choice);
      assert AllSlashFree(filled);
      SplitOfJoin(filled);
    }
  }

  // ----- What a trailing star means -----

  // A trailing single star after a slash is no narrower than a trailing double star: both are
  // prefix matches.
  lemma TrailingStarsAgree(prefix: string, path: string)
    ensures MatchPattern(prefix + "/*", path) == MatchPattern(prefix + "/**", path) == HasPrefix(path, prefix + "/")
  {
    var one, two := prefix + "/*", prefix + "/**";
    assert one[|one| - 2..] == "/*" && two[|two| - 2..] == "**";
    assert one[|one| - 1..] == "*";
    assert TrimSuffix(one, "*") == prefix + "/";
    assert TrimSuffix(two, "**") == prefix + "/";
    assert one[..|prefix| + 1] == prefix + "/" && two[..|prefix| + 1] == prefix + "/";
  }

  // A trailing double star is a prefix match wherever it stands, after a slash or not.
  lemma DoubleStarIsPrefix(prefix: string, path: string)
    ensures MatchPattern(prefix + "**", path) <==> HasPrefix(path, prefix)
  {
    var pattern := prefix + "**";
    assert pattern[|pattern| - 2..] == "**" && pattern[..|prefix|] == prefix;
    assert TrimSuffix(pattern, "**") == prefix;
  }

  /** The segments before a last one. */
  function Before(prefix: string): seq<string> {
    if prefix == "" then [] else Segments(prefix)
  }

  lemma SegmentsOfExtended(prefix: string, rest: string)
    ensures Segments(prefix + "/" + rest) == Before(prefix) + Split(rest)
  {
    var s := prefix + "/" + rest;
    if prefix == "" {
      assert s == "/" + rest && s[1..] == rest;
    } else {
      assert s[0] == prefix[0];
      if HasPrefix(prefix, "/") {
        assert s[1..] == prefix[1..] + "/" + rest;
      }
      SplitAtSlash(TrimPrefix(prefix, "/"), rest);
    }
  }

  lemma SegmentsOfTrailingStar(prefix: string)
    ensures Segments(prefix + "/*") == Before(prefix) + ["*"]
  {
    assert prefix + "/*" == prefix + "/" + "*";
    SegmentsOfExtended(prefix, "*");
    SplitOfSlashFree("*");
  }

  lemma {:induction false} OnePartIff(s: string)
    ensures |Split(s)| == 1 <==> SlashFree(s)
  {
    JoinOfSplit(s);
    if SlashFree(s) {
      SplitOfSlashFree(s);
    }
  }

  /** Under the prefix the pattern always matches, but the segment-wise reading only in a last
      segment. */
  lemma UnderPrefix(prefix: string, rest: string)
    ensures MatchPattern(prefix + "/*", prefix + "/" + rest)
    ensures SegmentWise(prefix + "/*", prefix + "/" + rest) <==> SlashFree(rest)
  {
    TrailingStarsAgree(prefix, prefix + "/" + rest);
    SegmentsOfTrailingStar(prefix);
    SegmentsOfExtended(prefix, rest);
    OnePartIff(rest);
    StarMatchesOne(Before(prefix), Split(rest));
  }

  lemma StarMatchesOne(before: seq<string>, last: seq<string>)
    ensures SegmentsMatch(before + ["*"], before + last) <==> |last| == 1
  {
  }

  /** An inner star of a pattern that ends in a star stands against another segment. */
  predicate InnerStarStandsFor(prefix: string, path: string, i: nat) {
    i < |Before(prefix)| && i < |Segments(path)| && Before(prefix)[i] == "*" && Segments(path)[i] != "*"
  }

  lemma {:induction false} JoinOfLast(parts: seq<string>, last: string)
    requires parts != []
    ensures Join(parts + [last]) == Join(parts) + "/" + last
  {
    if |parts| > 1 {
      JoinOfLast(parts[1..], last);
      assert (parts + [last])[1..] == parts[1..] + [last];
    }
  }

  predicate LeadAlike(s: string, t: string) {
    HasPrefix(s, "/") <==> HasPrefix(t, "/")
  }

  lemma Untrimmed(s: string)
    ensures s == (if HasPrefix(s, "/") then "/" else "") + TrimPrefix(s, "/")
  {
    if HasPrefix(s, "/") {
      assert s == s[..1] + s[1..];
    }
  }

  lemma SameLead(prefix: string)
    requires prefix != ""
    ensures HasPrefix(prefix + "/*", "/") <==> HasPrefix(prefix, "/")
  {
    assert (prefix + "/*")[0] == prefix[0];
    assert HasPrefix(prefix, "/") <==> prefix[0] == '/';
    assert HasPrefix(prefix + "/*", "/") <==> (prefix + "/*")[0] == '/';
  }

  lemma LeadRestored(prefix: string, path: string, last: string)
    requires TrimPrefix(path, "/") == TrimPrefix(prefix, "/") + "/" + last
    requires HasPrefix(path, "/") <==> HasPrefix(prefix, "/")
    ensures HasPrefix(path, prefix + "/")
  {
    var lead, trimmed := if HasPrefix(prefix, "/") then "/" else "", TrimPrefix(prefix, "/");
    Untrimmed(prefix);
    Untrimmed(path);
    assert path == lead + (trimmed + "/" + last);
    assert lead + (trimmed + "/" + last) == (lead + trimmed) + "/" + last;
    assert path == prefix + "/" + last;
    assert (prefix + "/" + last)[..|prefix| + 1] == prefix + "/";
  }

  /** A path with the same leading slash whose segments are those of the prefix and one more. */
  lemma PathUnderPrefix(prefix: string, path: string, last: string)
    requires Segments(path) == Before(prefix) + [last] && LeadAlike(prefix + "/*", path)
    ensures HasPrefix(path, prefix + "/")
  {
    if prefix == "" {
      assert prefix + "/*" == "/*" && "/*"[..1] == "/";
    } else {
      var trimmed := TrimPrefix(prefix, "/");
      assert TrimPrefix(path, "/") == trimmed + "/" + last by {
        JoinOfSplit(TrimPrefix(path, "/"));
        JoinOfSplit(trimmed);
        JoinOfLast(Before(prefix), last);
      }
      SameLead(prefix);
      LeadRestored(prefix, path, last);
    }
  }

  /** Outside the prefix the pattern never matches; the segment-wise reading may, if an inner star
      stands for another segment or the leading slashes differ. */
  lemma OutsidePrefix(prefix: string, path: string)
    requires !HasPrefix(path, prefix + "/") && SegmentWise(prefix + "/*", path)
    ensures !LeadAlike(prefix + "/*", path) || exists i: nat :: InnerStarStandsFor(prefix, path, i)
  {
    SegmentsOfTrailingStar(prefix);
    var parts := Segments(path);
    var n := |Before(prefix)|;
    assert parts == parts[..n] + [parts[n]];
    if forall i :: 0 <= i < n ==> !InnerStarStandsFor(prefix, path, i) {
      forall i | 0 <= i < n
        ensures parts[i] == Before(prefix)[i]
      {
        assert !InnerStarStandsFor(prefix, path, i);
        assert Segments(prefix + "/*")[i] == Before(prefix)[i];
      }
      assert parts[..n] == Before(prefix);
      if LeadAlike(prefix + "/*", path) {
        PathUnderPrefix(prefix, path, parts[n]);
      }
    } else {
      var i :| 0 <= i < n && InnerStarStandsFor(prefix, path, i);
    }
  }

  /** The path is under the prefix of the pattern, and more than one segment below it. */
  predicate DeepUnder(prefix: string, path: string) {
    HasPrefix(path, prefix + "/") && !SlashFree(path[|prefix| + 1..])
  }

  lemma AlikeUnderPrefix(prefix: string, path: string)
    requires HasPrefix(path, prefix + "/")
    ensures path == prefix + "/" + path[|prefix| + 1..]
    ensures LeadAlike(prefix + "/*", path)
    ensures forall i: nat :: !InnerStarStandsFor(prefix, path, i)
  {
    var rest := path[|prefix| + 1..];
    assert path == path[..|prefix| + 1] + rest && path[..|prefix| + 1] == prefix + "/";
    assert (prefix + "/*")[0] == (prefix + "/")[0] == path[0];
    assert HasPrefix(prefix + "/*", "/") <==> (prefix + "/*")[0] == '/';
    assert HasPrefix(path, "/") <==> path[0] == '/';
    SegmentsOfExtended(prefix, rest);
  }

  /** A pattern that ends in a slash and a star means what its segments say, on exactly the paths that
      are not more than one segment below its prefix and do not need an inner star to stand for
      another segment or a leading slash to be supplied. */
  lemma SingleSegmentIff(prefix: string, path: string)
    ensures (MatchPattern(prefix + "/*", path) <==> SegmentWise(prefix + "/*", path)) <==>
            && !DeepUnder(prefix, path)
            && (SegmentWise(prefix + "/*", path) ==>
                  LeadAlike(prefix + "/*", path) && forall i: nat :: !InnerStarStandsFor(prefix, path, i))
  {
    TrailingStarsAgree(prefix, path);
    if HasPrefix(path, prefix + "/") {
      AlikeUnderPrefix(prefix, path);
      UnderPrefix(prefix, path[|prefix| + 1..]);
    } else if SegmentWise(prefix + "/*", path) {
      OutsidePrefix(prefix, path);
    }
  }

  /** Without inner stars, and with a leading slash on both, only the paths more than one segment
      below the prefix are told apart. */
  lemma SingleSegmentIffPlain(p: string, path: string)
    requires '*' !in p && HasPrefix(path, "/")
    ensures (MatchPattern("/" + p + "/*", path) <==> SegmentWise("/" + p + "/*", path)) <==> !DeepUnder("/" + p, path)
  {
    var prefix := "/" + p;
    SingleSegmentIff(prefix, path);
    assert prefix[1..] == p && Before(prefix) == Split(p);
    forall i: nat
      ensures !InnerStarStandsFor(prefix, path, i)
    {
      if i < |Split(p)| && Split(p)[i] == "*" {
        StarPartHasStar(p, i);
      }
    }
    assert (prefix + "/*")[0] == '/';
  }

  lemma {:induction false} PartCharacters(s: string, i: nat)
    requires i < |Split(s)|
    ensures forall c :: c in Split(s)[i] ==> c in s
  {
    if s != "" {
      var rest := Split(s[1..]);
      if s[0] == '/' {
        if i > 0 {
          PartCharacters(s[1..], i - 1);
          assert Split(s)[i] == rest[i - 1];
        }
      } else {
        PartCharacters(s[1..], if i > 0 then i else 0);
        if i > 0 {
          assert Split(s)[i] == rest[i];
        }
      }
    }
  }

  lemma StarPartHasStar(s: string, i: nat)
    requires i < |Split(s)| && Split(s)[i] == "*"
    ensures '*' in s
  {
    PartCharacters(s, i);
    assert Split(s)[i][0] == '*';
  }

  // The inner stars of a pattern that ends in a wildcard are taken literally, for both endings.
  lemma InnerStarIsLiteral(a: string, b: string, path: string)
    requires |path| <= |a| || path[|a|] != '*'
    ensures !MatchPattern(a + "*" + b + "/*", path) && !MatchPattern(a + "*" + b + "/**", path)
  {
    var prefix := a + "*" + b;
    TrailingStarsAgree(prefix, path);
    assert (prefix + "/")[|a|] == '*';
  }

  lemma SegmentsOfJoin(parts: seq<string>)
    requires parts != [] && AllSlashFree(parts)
    ensures Segments("/" + Join(parts)) == parts
  {
    assert ("/" + Join(parts))[1..] == Join(parts);
    SplitOfJoin(parts);
  }

  // So a pattern such as "/users/*/posts/*" misses every path that it should match segment by segment,
  // like "/users/5/posts/7", unless the inner segment is a star itself.
  lemma InnerStarMisses(a: string, b: string, x: string, y: string)
    requires AllSlashFree([a, b, x, y]) && x != "*"
    ensures var pattern, path := "/" + Join([a, "*", b]) + "/*", "/" + Join([a, x, b, y]);
            SegmentWise(pattern, path) && !MatchPattern(pattern, path)
  {
    var prefix, path := "/" + Join([a, "*", b]), "/" + Join([a, x, b, y]);
    assert SlashFree([a, b, x, y][0]) && SlashFree([a, b, x, y][1]) && SlashFree([a, b, x, y][2]) &&
           SlashFree([a, b, x, y][3]);
    SegmentsOfJoin([a, "*", b]);
    SegmentsOfJoin([a, x, b, y]);
    SegmentsOfTrailingStar(prefix);
    TrailingStarsAgree(prefix, path);
    assert InnerStarStandsFor(prefix, path, 1);
    if HasPrefix(path, prefix + "/") {
      AlikeUnderPrefix(prefix, path);
    }
  }

  // ----- The rules -----

  /** matchURL can return d: the timeout of a rule that matches, or 0 when none does. */
  ghost predicate CanReturn(rules: map<string, int>, path: string, d: int) {
    if exists p :: p in rules && MatchPattern(p, path) then
      exists p :: p in rules && MatchPattern(p, path) && rules[p] == d
    else d == 0
  }

  /** matchURL visits the rules in any order. */
  method MatchURL(rules: map<string, int>, path: string) returns (timeout: int)
    ensures CanReturn(rules, path, timeout)
  {
    var todo := rules.Keys;
    while todo != {}
      invariant todo <= rules.Keys
      invariant forall p :: p in rules && p !in todo ==> !MatchPattern(p, path)
      decreases todo
    {
      var p :| p in todo;
      if MatchPattern(p, path) {
        return rules[p];
      }
      todo := todo - {p};
    }
    return 0;
  }

  /** The timeout does not depend on the order exactly when all matching rules agree on it. */
  lemma OrderMattersIffRulesDisagree(rules: map<string, int>, path: string)
    ensures (forall d1, d2 :: CanReturn(rules, path, d1) && CanReturn(rules, path, d2) ==> d1 == d2) <==>
            (forall p, q :: p in rules && q in rules && MatchPattern(p, path) && MatchPattern(q, path) ==>
              rules[p] == rules[q])
  {
    if !(forall p, q :: p in rules && q in rules && MatchPattern(p, path) && MatchPattern(q, path) ==>
         rules[p] == rules[q]) {
      var p, q :| p in rules && q in rules && MatchPattern(p, path) && MatchPattern(q, path) && rules[p] != rules[q];
      assert CanReturn(rules, path, rules[p]) && CanReturn(rules, path, rules[q]);
    }
  }
}
