/**
 * The timer script's reading of a Linear issue URL: the issue id is the first
 * match of `linear\.app\/[^/]+\/issue\/([^/]+)` anywhere in the URL, that is
 * the non-empty run of non-slash characters after `linear.app/<team>/issue/`,
 * where `<team>` is itself a non-empty run of non-slash characters. Without an
 * id the script reports an invalid URL and exits with status 1.
 */
module IssueUrl {
  import opened Wrappers
  import opened Text

  const Host: string := "linear.app/"
  const IssuePath: string := "/issue/"

  /**
   * `s` reads `<host><team><path><id><rest>`: team and id are non-empty and
   * slash-free, and the id runs to the end or to the next slash.
   */
  ghost predicate Link(s: string, host: string, path: string, team: string, id: string, rest: string) {
    && s == host + (team + (path + (id + rest)))
    && team != [] && '/' !in team
    && id != [] && '/' !in id
    && (rest == [] || rest[0] == '/')
  }

  /** `url[i..]` reads `linear.app/<team>/issue/<id><rest>` as the pattern demands. */
  ghost predicate LinkAt(url: string, i: nat, team: string, id: string, rest: string) {
    i <= |url| && Link(url[i..], Host, IssuePath, team, id, rest)
  }

  /**
   * The pattern `<host>[^/]+<path>([^/]+)` at the start of `s`. Both `[^/]+`
   * runs are greedy and cannot cross a slash, so the team is the whole run up
   * to the next slash and the id the whole run after the path: no
   * backtracking gives another match.
   */
  function MatchPrefix(s: string, host: string, path: string): (r: Option<string>)
    ensures r.Some? ==> r.value != [] && '/' !in r.value
  {
    if !(host <= s) then None
    else
      var afterHost := s[|host|..];
      var t := IndexOf(afterHost, '/');
      if t == 0 || !(path <= afterHost[t..]) then None
      else
        var afterPath := afterHost[t + |path|..];
        var n := IndexOf(afterPath, '/');
        if n == 0 then None else Some(afterPath[..n])
  }

  /** The pattern tried at position `i` of the URL. */
  function MatchAt(url: string, i: nat): (r: Option<string>)
    requires i <= |url|
    ensures r.Some? ==> r.value != [] && '/' !in r.value
  {
    MatchPrefix(url[i..], Host, IssuePath)
  }

  /** The cuts `MatchPrefix` makes when it matches. */
  lemma MatchPrefixCuts(s: string, host: string, path: string) returns (afterHost: string, t: nat, afterPath: string, n: nat)
    requires MatchPrefix(s, host, path).Some?
    ensures host <= s && afterHost == s[|host|..]
    ensures t == IndexOf(afterHost, '/') && 0 < t && path <= afterHost[t..]
    ensures afterPath == afterHost[t + |path|..]
    ensures n == IndexOf(afterPath, '/') && 0 < n
    ensures MatchPrefix(s, host, path) == Some(afterPath[..n])
  {
    afterHost := s[|host|..];
    t := IndexOf(afterHost, '/');
    afterPath := afterHost[t + |path|..];
    n := IndexOf(afterPath, '/');
  }

  /** The pieces between the cuts form a link. */
  lemma LinkOfCuts(s: string, host: string, path: string, afterHost: string, t: nat, afterPath: string, n: nat)
    requires host <= s && afterHost == s[|host|..]
    requires t == IndexOf(afterHost, '/') && 0 < t && path <= afterHost[t..]
    requires afterPath == afterHost[t + |path|..]
    requires n == IndexOf(afterPath, '/') && 0 < n
    ensures Link(s, host, path, afterHost[..t], afterPath[..n], afterPath[n..])
  {
    var team, id, rest := afterHost[..t], afterPath[..n], afterPath[n..];
    assert '/' !in team by { BeforeIndexOf(afterHost, '/'); }
    assert '/' !in id by { BeforeIndexOf(afterPath, '/'); }
    assert rest == [] || rest[0] == '/' by { FromIndexOf(afterPath, '/'); }
    assert afterPath == id + rest by { TakeDrop(afterPath, n); }
    assert afterHost == team + (path + afterPath) by { SplitAround(afterHost, path, t); }
    assert s == host + afterHost by { PrefixRest(s, host); }
  }

  lemma MatchPrefixSound(s: string, host: string, path: string) returns (team: string, rest: string)
    requires MatchPrefix(s, host, path).Some?
    ensures Link(s, host, path, team, MatchPrefix(s, host, path).value, rest)
  {
    var afterHost, t, afterPath, n := MatchPrefixCuts(s, host, path);
    LinkOfCuts(s, host, path, afterHost, t, afterPath, n);
    team, rest := afterHost[..t], afterPath[n..];
  }

  lemma MatchPrefixComplete(s: string, host: string, path: string, team: string, id: string, rest: string)
    requires |path| > 0 && path[0] == '/'
    requires Link(s, host, path, team, id, rest)
    ensures MatchPrefix(s, host, path) == Some(id)
  {
    var afterPath := id + rest;
    var afterHost := team + (path + afterPath);
    assert host <= s && s[|host|..] == afterHost;
    IndexOfAfter(team, path + afterPath, '/');
    assert afterHost[|team|..] == path + afterPath;
    assert path <= afterHost[|team|..];
    assert afterHost[|team| + |path|..] == afterPath;
    if rest == [] {
      IndexOfNone(id, '/');
      assert afterPath == id;
    } else {
      IndexOfAfter(id, rest, '/');
    }
    assert afterPath[..|id|] == id;
  }

  /** A match at `i` is a reading of `url[i..]` as an issue link. */
  lemma MatchAtSound(url: string, i: nat)
    requires i <= |url| && MatchAt(url, i).Some?
    ensures exists team, rest :: LinkAt(url, i, team, MatchAt(url, i).value, rest)
  {
    var team, rest := MatchPrefixSound(url[i..], Host, IssuePath);
    assert LinkAt(url, i, team, MatchAt(url, i).value, rest);
  }

  /** Every reading of `url[i..]` as an issue link is the one `MatchAt` finds. */
  lemma MatchAtComplete(url: string, i: nat, team: string, id: string, rest: string)
    requires LinkAt(url, i, team, id, rest)
    ensures MatchAt(url, i) == Some(id)
  {
    MatchPrefixComplete(url[i..], Host, IssuePath, team, id, rest);
  }

  /** The first position at or after `i` where the pattern matches, or `|url| + 1`. */
  function FirstMatch(url: string, i: nat): (j: nat)
    requires i <= |url|
    ensures i <= j <= |url| + 1
    ensures j <= |url| ==> MatchAt(url, j).Some?
    ensures forall k :: i <= k < j && k <= |url| ==> MatchAt(url, k).None?
    decreases |url| - i
  {
    if MatchAt(url, i).Some? then i
    else if i == |url| then |url| + 1
    else FirstMatch(url, i + 1)
  }

  /** `linearUrl.match(...)?.[1]`: the id from the leftmost match, if any. */
  function ExtractIssueId(url: string): (r: Option<string>)
    ensures r.Some? ==> r.value != [] && '/' !in r.value
    ensures r.None? <==> forall i :: 0 <= i <= |url| ==> MatchAt(url, i).None?
    ensures r.Some? ==> r == MatchAt(url, FirstMatch(url, 0))
  {
    var j := FirstMatch(url, 0);
    if j <= |url| then MatchAt(url, j) else None
  }

  /** What the script does with the URL: go on with the issue id, or exit with a status. */
  datatype Step = Continue(issueId: string) | Exit(status: int)

  function CheckIssueUrl(url: string): (r: Step)
    ensures r.Exit? <==> forall i :: 0 <= i <= |url| ==> MatchAt(url, i).None?
    ensures r.Exit? ==> r.status == 1
    ensures r.Continue? ==> r.issueId != [] && '/' !in r.issueId
  {
    match ExtractIssueId(url)
    case None => Exit(1)
    case Some(id) => Continue(id)
  }

  /** The id comes from the first position where the pattern matches. */
  lemma ExtractFirst(url: string, j: nat)
    requires j <= |url| && MatchAt(url, j).Some?
    requires forall k :: 0 <= k < j ==> MatchAt(url, k).None?
    ensures ExtractIssueId(url) == MatchAt(url, j)
  {
    var f := FirstMatch(url, 0);
    assert f <= j;
    assert f == j;
  }

  /** No match can start inside a prefix that has no `l`, the first letter of the host. */
  lemma NoMatchWithin(url: string, prefix: string)
    requires prefix <= url && 'l' !in prefix
    ensures forall k :: 0 <= k < |prefix| ==> MatchAt(url, k).None?
  {
    forall k | 0 <= k < |prefix| ensures MatchAt(url, k).None? {
      assert url[k..][0] == prefix[k] != Host[0];
    }
  }

  /** Behind a scheme with no `l` in it, an issue link yields its issue id. */
  lemma IdAfterScheme(scheme: string, url: string, team: string, id: string, rest: string)
    requires 'l' !in scheme
    requires url == scheme + (Host + (team + (IssuePath + (id + rest))))
    requires team != [] && '/' !in team
    requires id != [] && '/' !in id
    requires rest == [] || rest[0] == '/'
    ensures ExtractIssueId(url) == Some(id)
  {
    assert LinkAt(url, |scheme|, team, id, rest) by {
      assert url[|scheme|..] == Host + (team + (IssuePath + (id + rest)));
    }
    MatchAtComplete(url, |scheme|, team, id, rest);
    NoMatchWithin(url, scheme);
    ExtractFirst(url, |scheme|);
  }

  /** A link as Linear writes it yields its issue id, whatever path follows the id. */
  lemma IdOfIssueLink(team: string, id: string, rest: string)
    requires team != [] && '/' !in team
    requires id != [] && '/' !in id
    requires rest == [] || rest[0] == '/'
    ensures ExtractIssueId("https://linear.app/" + team + "/issue/" + id + rest) == Some(id)
  {
    var url := "https://linear.app/" + team + "/issue/" + id + rest;
    assert url == "https://" + (Host + (team + (IssuePath + (id + rest)))) by {
      assert "https://linear.app/" == "https://" + Host;
      Regroup("https://", Host, team, IssuePath, id, rest);
    }
    IdAfterScheme("https://", url, team, id, rest);
  }
}
