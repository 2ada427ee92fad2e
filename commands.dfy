/**
 * The command palette's command table, the keyword list drawn from it, and
 * the scored fuzzy search over it.
 */
module Commands {
  import opened JsStrings
  import opened JsArrays
  import opened Wrappers

  datatype CommandInfo = CommandInfo(name: string, aliases: seq<string>, description: string, example: string)

  /** `AVAILABLE_COMMANDS`. */
  const AvailableCommands: seq<CommandInfo> := [
    CommandInfo("md5", [], "计算 MD5 哈希值", "md5 hello"),
    CommandInfo("sha1", [], "计算 SHA1 哈希值", "sha1 hello"),
    CommandInfo("sha256", [], "计算 SHA256 哈希值", "sha256 hello"),
    CommandInfo("sha512", [], "计算 SHA512 哈希值", "sha512 hello"),
    CommandInfo("base64", ["b64"], "Base64 编码", "base64 hello"),
    CommandInfo("base64d", ["b64d"], "Base64 解码", "base64d aGVsbG8="),
    CommandInfo("urlencode", ["url", "ue"], "URL 编码", "urlencode hello world"),
    CommandInfo("urldecode", ["ud"], "URL 解码", "urldecode hello%20world"),
    CommandInfo("timestamp", ["ts"], "时间戳转日期", "timestamp 1609459200"),
    CommandInfo("date", [], "日期转时间戳", "date 2021-01-01 00:00:00")
  ]

  /** No command appears twice in the table. */
  lemma TableDistinct()
    ensures Distinct(AvailableCommands)
  {
    var t := AvailableCommands;
    forall i, j | 0 <= i < j < |t| ensures t[i] != t[j] {
      assert t[i].name != t[j].name;
    }
  }

  // ---------------------------------------------------------------------
  // getAllCommandKeywords
  // ---------------------------------------------------------------------

  /** Each command's name followed by its aliases, command after command. */
  function KeywordsOf(cmds: seq<CommandInfo>): seq<string> {
    if cmds == [] then []
    else
      var last := cmds[|cmds| - 1];
      KeywordsOf(cmds[..|cmds| - 1]) + [last.name] + last.aliases
  }

  /** The total number of aliases. */
  function AliasCount(cmds: seq<CommandInfo>): nat {
    if cmds == [] then 0 else AliasCount(cmds[..|cmds| - 1]) + |cmds[|cmds| - 1].aliases|
  }

  /** One keyword per name and one per alias. */
  lemma {:induction false} KeywordsLength(cmds: seq<CommandInfo>)
    ensures |KeywordsOf(cmds)| == |cmds| + AliasCount(cmds)
  {
    if cmds != [] {
      KeywordsLength(cmds[..|cmds| - 1]);
    }
  }

  /** A keyword is exactly a name or an alias of some command. */
  lemma {:induction false} KeywordsMembers(cmds: seq<CommandInfo>, w: string)
    ensures w in KeywordsOf(cmds) <==> exists i :: 0 <= i < |cmds| && (w == cmds[i].name || w in cmds[i].aliases)
  {
    if cmds != [] {
      var prefix, last := cmds[..|cmds| - 1], cmds[|cmds| - 1];
      KeywordsMembers(prefix, w);
      assert forall i :: 0 <= i < |prefix| ==> prefix[i] == cmds[i];
      if exists i :: 0 <= i < |cmds| && (w == cmds[i].name || w in cmds[i].aliases) {
        var i :| 0 <= i < |cmds| && (w == cmds[i].name || w in cmds[i].aliases);
        if i < |prefix| {
          assert prefix[i] == cmds[i];
        }
      }
    }
  }

  /** The keywords of the table, spelled out. */
  lemma TableKeywords()
    ensures KeywordsOf(AvailableCommands) == ["md5", "sha1", "sha256", "sha512", "base64", "b64",
      "base64d", "b64d", "urlencode", "url", "ue", "urldecode", "ud", "timestamp", "ts", "date"]
  {
    var t := AvailableCommands;
    assert t[..1][..0] == [];
    assert KeywordsOf(t[..1]) == ["md5"];
    assert t[..2][..1] == t[..1];
    assert KeywordsOf(t[..2]) == ["md5", "sha1"];
    assert t[..3][..2] == t[..2];
    assert KeywordsOf(t[..3]) == ["md5", "sha1", "sha256"];
    assert t[..4][..3] == t[..3];
    assert KeywordsOf(t[..4]) == ["md5", "sha1", "sha256", "sha512"];
    assert t[..5][..4] == t[..4];
    assert KeywordsOf(t[..5]) == ["md5", "sha1", "sha256", "sha512", "base64", "b64"];
    assert t[..6][..5] == t[..5];
    assert KeywordsOf(t[..6]) == ["md5", "sha1", "sha256", "sha512", "base64", "b64", "base64d", "b64d"];
    assert t[..7][..6] == t[..6];
    assert KeywordsOf(t[..7]) == ["md5", "sha1", "sha256", "sha512", "base64", "b64", "base64d", "b64d",
      "urlencode", "url", "ue"];
    assert t[..8][..7] == t[..7];
    assert KeywordsOf(t[..8]) == ["md5", "sha1", "sha256", "sha512", "base64", "b64", "base64d", "b64d",
      "urlencode", "url", "ue", "urldecode", "ud"];
    assert t[..9][..8] == t[..8];
    assert KeywordsOf(t[..9]) == ["md5", "sha1", "sha256", "sha512", "base64", "b64", "base64d", "b64d",
      "urlencode", "url", "ue", "urldecode", "ud", "timestamp", "ts"];
    assert t[..10][..9] == t[..9];
    assert t[..10] == t;
  }

  /** `getAllCommandKeywords()`: a loop pushing each name and then its aliases. */
  method GetAllCommandKeywords() returns (keywords: seq<string>)
    ensures keywords == KeywordsOf(AvailableCommands)
    ensures |keywords| == |AvailableCommands| + AliasCount(AvailableCommands)
    ensures forall w :: w in keywords <==>
      exists i :: 0 <= i < |AvailableCommands| && (w == AvailableCommands[i].name || w in AvailableCommands[i].aliases)
  {
    keywords := [];
    for i := 0 to |AvailableCommands|
      invariant keywords == KeywordsOf(AvailableCommands[..i])
    {
      var cmd := AvailableCommands[i];
      assert AvailableCommands[..i + 1][..i] == AvailableCommands[..i];
      keywords := keywords + [cmd.name];
      keywords := keywords + cmd.aliases;
    }
    assert AvailableCommands[..|AvailableCommands|] == AvailableCommands;
    KeywordsLength(AvailableCommands);
    forall w ensures w in keywords <==>
      exists i :: 0 <= i < |AvailableCommands| && (w == AvailableCommands[i].name || w in AvailableCommands[i].aliases)
    {
      KeywordsMembers(AvailableCommands, w);
    }
  }

  // ---------------------------------------------------------------------
  // fuzzyMatchCommands
  // ---------------------------------------------------------------------

  /** The test passed to `aliases.find`: equal, a prefix, or contained. */
  predicate AliasHit(alias: string, q: string) {
    Lower(alias) == q || StartsWith(Lower(alias), q) || Contains(Lower(alias), q)
  }

  /** A prefix is contained. */
  lemma StartsWithContains<T>(s: seq<T>, p: seq<T>)
    requires StartsWith(s, p)
    ensures Contains(s, p)
  {
  }

  /** The `find` test is containment. */
  lemma AliasHitIsContains(alias: string, q: string)
    ensures AliasHit(alias, q) <==> Contains(Lower(alias), q)
  {
    if Lower(alias) == q {
      assert Lower(alias)[..|q|] == q;
    }
  }

  /** `aliases.find(...)`: the index of the first alias the test accepts. */
  function FirstAliasHit(aliases: seq<string>, q: string): (k: Option<nat>)
    ensures k.Some? ==> (k.value < |aliases| && AliasHit(aliases[k.value], q)
      && forall j :: 0 <= j < k.value ==> !AliasHit(aliases[j], q))
    ensures k.None? ==> forall j :: 0 <= j < |aliases| ==> !AliasHit(aliases[j], q)
  {
    if aliases == [] then None
    else if AliasHit(aliases[0], q) then Some(0)
    else match FirstAliasHit(aliases[1..], q)
      case None => None
      case Some(k) => Some(k + 1)
  }

  /** The alias branch of the score: the first matching alias decides it. A
      found alias that is the empty string is falsy and scores nothing. */
  function AliasScore(aliases: seq<string>, q: string): nat {
    match FirstAliasHit(aliases, q)
    case None => 0
    case Some(k) =>
      var alias := aliases[k];
      if alias == [] then 0
      else if Lower(alias) == q then 400
      else if StartsWith(Lower(alias), q) then 300
      else 150
  }

  /** The score of one command for the lower-cased query `q`: one of the
      listed values, and 1000 exactly for an exact name match. */
  function Score(cmd: CommandInfo, q: string): (r: nat)
    ensures r in {0, 50, 150, 200, 300, 400, 500, 1000}
    ensures r <= 1000
    ensures r == 1000 <==> Lower(cmd.name) == q
  {
    var name := Lower(cmd.name);
    var score :=
      if name == q then 1000
      else if StartsWith(name, q) then 500
      else if Contains(name, q) then 200
      else AliasScore(cmd.aliases, q);
    if score == 0 && Contains(Lower(cmd.description), q) then 50 else score
  }

  /** The alias score is positive exactly when some alias contains a non-empty query. */
  lemma AliasScorePositive(aliases: seq<string>, q: string)
    requires q != []
    ensures AliasScore(aliases, q) > 0 <==> exists a :: a in aliases && Contains(Lower(a), q)
  {
    match FirstAliasHit(aliases, q)
    case None =>
      forall a | a in aliases ensures !Contains(Lower(a), q) {
        var j :| 0 <= j < |aliases| && aliases[j] == a;
        AliasHitIsContains(a, q);
      }
    case Some(k) =>
      AliasHitIsContains(aliases[k], q);
      assert aliases[k] in aliases;
      assert aliases[k] != [] by {
        assert |Lower(aliases[k])| >= |q| by { ContainsLength(Lower(aliases[k]), q); }
      }
  }

  /** What contains a sequence is at least as long. */
  lemma {:induction false} ContainsLength<T>(s: seq<T>, p: seq<T>)
    requires Contains(s, p)
    ensures |p| <= |s|
  {
    if !StartsWith(s, p) {
      ContainsLength(s[1..], p);
    }
  }

  /** A command scores for a non-empty query exactly when its name, one of
      its aliases or its description contains the query. */
  lemma ScorePositive(cmd: CommandInfo, q: string)
    requires q != []
    ensures Score(cmd, q) > 0 <==>
      Contains(Lower(cmd.name), q) || (exists a :: a in cmd.aliases && Contains(Lower(a), q))
      || Contains(Lower(cmd.description), q)
  {
    var name := Lower(cmd.name);
    if name == q {
      assert name[..|q|] == q;
    }
    AliasScorePositive(cmd.aliases, q);
  }

  /** The test of the result filter, `score > 0`. */
  function Matches(q: string): CommandInfo -> bool {
    cmd => Score(cmd, q) > 0
  }

  /** The comparator `(a, b) => b.score - a.score`, the higher score first. */
  function ByScore(q: string): (CommandInfo, CommandInfo) -> int {
    (x, y) => Score(y, q) - Score(x, q)
  }

  lemma ByScoreIsComparator(q: string)
    ensures IsComparator(ByScore(q))
  {
  }

  /** `fuzzyMatchCommands(query)`. The source pushes `{command, score}`
      records; the score is a function of the command, so the model keeps
      the commands and recomputes the score in the comparator. */
  method FuzzyMatchCommands(query: string) returns (matches: seq<CommandInfo>)
    ensures Trim(query) == [] ==> matches == AvailableCommands
    ensures Trim(query) != [] ==> multiset(matches) == multiset(Filter(AvailableCommands, Matches(Lower(query))))
    ensures Trim(query) != [] ==> forall c :: c in matches <==> c in AvailableCommands && Score(c, Lower(query)) > 0
    ensures Trim(query) != [] ==> forall i, j :: 0 <= i < j < |matches| ==>
      Score(matches[i], Lower(query)) >= Score(matches[j], Lower(query))
    ensures Trim(query) != [] ==> forall i, j ::
      0 <= i < j < |matches| && Score(matches[i], Lower(query)) == Score(matches[j], Lower(query)) ==>
      Before(AvailableCommands, matches[i], matches[j])
    ensures Distinct(matches)
    ensures Trim(query) != [] && (exists c :: c in AvailableCommands && Lower(c.name) == Lower(query)) ==>
      matches != [] && Lower(matches[0].name) == Lower(query)
  {
    TableDistinct();
    matches := RankCommands(AvailableCommands, query);
  }

  /** The body of `fuzzyMatchCommands` over a table of distinct commands. */
  method RankCommands(table: seq<CommandInfo>, query: string) returns (matches: seq<CommandInfo>)
    requires Distinct(table)
    ensures Trim(query) == [] ==> matches == table
    ensures Trim(query) != [] ==> multiset(matches) == multiset(Filter(table, Matches(Lower(query))))
    ensures Trim(query) != [] ==> forall c :: c in matches <==> c in table && Score(c, Lower(query)) > 0
    ensures Trim(query) != [] ==> forall i, j :: 0 <= i < j < |matches| ==>
      Score(matches[i], Lower(query)) >= Score(matches[j], Lower(query))
    ensures Trim(query) != [] ==> forall i, j ::
      0 <= i < j < |matches| && Score(matches[i], Lower(query)) == Score(matches[j], Lower(query)) ==>
      Before(table, matches[i], matches[j])
    ensures Distinct(matches)
    ensures Trim(query) != [] && (exists c :: c in table && Lower(c.name) == Lower(query)) ==>
      matches != [] && Lower(matches[0].name) == Lower(query)
  {
    if Trim(query) == [] {
      return table;
    }
    var q := Lower(query);
    var results := ScoredCommands(table, q);
    matches := SortByScore(results, q);
    RankedMatches(table, q, results, matches);
    forall i, j | 0 <= i < j < |matches| && Score(matches[i], q) == Score(matches[j], q)
      ensures Before(table, matches[i], matches[j])
    {
      FilterBefore(table, Matches(q), matches[i], matches[j]);
    }
  }

  /** `results.sort((a, b) => b.score - a.score)`, on an array copy of the results. */
  method SortByScore(results: seq<CommandInfo>, q: string) returns (matches: seq<CommandInfo>)
    ensures multiset(matches) == multiset(results)
    ensures Sorted(matches, ByScore(q))
    ensures forall i, j :: 0 <= i < j < |matches| && Score(matches[i], q) == Score(matches[j], q) ==>
      Before(results, matches[i], matches[j])
  {
    var a := new CommandInfo[|results|](i requires 0 <= i < |results| => results[i]);
    assert a[..] == results;
    ByScoreIsComparator(q);
    ghost var perm := InsertionSort(a, ByScore(q));
    matches := a[..];
    StableTies(results, matches, perm, ByScore(q));
  }

  /** The `forEach` over the table pushing every command with a positive score. */
  method ScoredCommands(table: seq<CommandInfo>, q: string) returns (results: seq<CommandInfo>)
    ensures results == Filter(table, Matches(q))
  {
    results := [];
    for i := 0 to |table|
      invariant results == Filter(table[..i], Matches(q))
    {
      var cmd := table[i];
      assert table[..i + 1][..i] == table[..i];
      var score := Score(cmd, q);
      if score > 0 {
        results := results + [cmd];
      }
    }
    assert table[..|table|] == table;
  }

  /** What the ranking keeps of the filtered table. */
  lemma RankedMatches(table: seq<CommandInfo>, q: string, results: seq<CommandInfo>, matches: seq<CommandInfo>)
    requires Distinct(table)
    requires results == Filter(table, Matches(q))
    requires multiset(matches) == multiset(results)
    requires Sorted(matches, ByScore(q))
    ensures forall c :: c in matches <==> c in table && Score(c, q) > 0
    ensures forall i, j :: 0 <= i < j < |matches| ==> Score(matches[i], q) >= Score(matches[j], q)
    ensures Distinct(matches)
    ensures (exists c :: c in table && Lower(c.name) == q) ==>
      matches != [] && Lower(matches[0].name) == q
  {
    ByScoreIsComparator(q);
    SortedAllPairs(matches, ByScore(q));
    RankedMembers(table, q, results, matches);
    RankedDistinct(table, q, results, matches);
    if exists c :: c in table && Lower(c.name) == q {
      var c :| c in table && Lower(c.name) == q;
      assert c in matches;
      var k :| 0 <= k < |matches| && matches[k] == c;
    }
  }

  /** The ranked commands are the table's commands with a positive score. */
  lemma RankedMembers(table: seq<CommandInfo>, q: string, results: seq<CommandInfo>, matches: seq<CommandInfo>)
    requires results == Filter(table, Matches(q))
    requires multiset(matches) == multiset(results)
    ensures forall c :: c in matches <==> c in table && Score(c, q) > 0
  {
    forall c ensures c in matches <==> c in table && Score(c, q) > 0 {
      FilterMember(table, Matches(q), c);
      assert c in matches <==> c in multiset(matches);
    }
  }

  /** A table without repeats gives a ranking without repeats. */
  lemma RankedDistinct(table: seq<CommandInfo>, q: string, results: seq<CommandInfo>, matches: seq<CommandInfo>)
    requires Distinct(table)
    requires results == Filter(table, Matches(q))
    requires multiset(matches) == multiset(results)
    ensures Distinct(matches)
  {
    forall x ensures multiset(matches)[x] <= 1 {
      FilterCount(table, Matches(q), x);
      DistinctCount(table, x);
    }
    CountDistinct(matches);
  }
}
