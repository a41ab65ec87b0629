/**
 The path side of routing: where the stores' namespace starts in a request
 URL, the two route patterns, and the file id taken from a download path.
 The regular expressions of the handler are written here as a split at `/`
 followed by checks on the pieces.
 */
module Paths {
  import opened Wrappers
  import opened Text

  /** `URL.parse(url).pathname`: the URL up to its query (`?`) or fragment (`#`). */
  function Pathname(url: string): (p: string)
    ensures p <= url
    ensures '?' !in p && '#' !in p
    ensures |p| < |url| ==> url[|p|] == '?' || url[|p|] == '#'
  {
    if url == [] || url[0] == '?' || url[0] == '#' then []
    else [url[0]] + Pathname(url[1..])
  }

  /** `pathname.substr(storesPath.length + 1)`: the path the routes are matched against. */
  function RoutedPath(storesPath: string, url: string): (path: string)
    ensures '?' !in path && '#' !in path
    ensures |storesPath| + 1 <= |Pathname(url)| ==> Pathname(url) == Pathname(url)[..|storesPath| + 1] + path
    ensures |Pathname(url)| <= |storesPath| + 1 ==> path == []
  {
    Drop(Pathname(url), |storesPath| + 1)
  }

  /** The pathname stops at the first `?` or `#`. */
  lemma {:induction false} PathnameOf(path: string, rest: string)
    requires '?' !in path && '#' !in path
    requires rest == [] || rest[0] == '?' || rest[0] == '#'
    ensures Pathname(path + rest) == path
    decreases |path|
  {
    if path == [] {
      assert path + rest == rest;
    } else {
      assert (path + rest)[1..] == path[1..] + rest;
      PathnameOf(path[1..], rest);
      assert [path[0]] + path[1..] == path;
    }
  }

  /** For a URL `/{storesPath}{path}` followed by a query or a fragment, the routes see `path`. */
  lemma RoutedPathOf(storesPath: string, path: string, rest: string)
    requires '?' !in storesPath + path && '#' !in storesPath + path
    requires rest == [] || rest[0] == '?' || rest[0] == '#'
    ensures RoutedPath(storesPath, "/" + storesPath + path + rest) == path
  {
    assert "/" + storesPath + path + rest == ("/" + storesPath + path) + rest;
    PathnameOf("/" + storesPath + path, rest);
    assert ("/" + storesPath + path)[|storesPath| + 1..] == path;
  }

  /**
   The cut does not look at what it removes: when the stores path occurs only
   in the query, the first |storesPath| + 1 characters of the pathname are
   dropped all the same, and the routes see the rest.
   */
  lemma CutIgnoresPrefix(storesPath: string, head: string, path: string, rest: string)
    requires |head| == |storesPath| + 1
    requires '?' !in head + path && '#' !in head + path
    requires rest == [] || rest[0] == '?' || rest[0] == '#'
    ensures RoutedPath(storesPath, head + path + rest) == path
  {
    assert head + path + rest == (head + path) + rest;
    PathnameOf(head + path, rest);
    assert (head + path)[|storesPath| + 1..] == path;
  }

  /** `/abc/s/i?ufs` mentions `ufs` only in its query, and is routed as `/s/i`. */
  lemma QueryOnlyMention()
    ensures RoutedPath("ufs", "/abc/s/i?ufs") == "/s/i"
  {
    CutIgnoresPrefix("ufs", "/abc", "/s/i", "?ufs");
    assert "/abc" + "/s/i" + "?ufs" == "/abc/s/i?ufs";
  }

  /** What `[^\/\?]+` matches: a non-empty piece without `/` or `?`. */
  predicate Segment(s: string) {
    |s| > 0 && '/' !in s && '?' !in s
  }

  /** `path` is in the language of `^\/([^\/\?]+)\/([^\/\?]+)$`, with the groups `store` and `id`. */
  ghost predicate IsStoreFilePath(path: string, store: string, id: string) {
    path == "/" + store + "/" + id && Segment(store) && Segment(id)
  }

  /** `path` is in the language of `^\/([^\/\?]+)\/([^\/\?]+)(?:\/([^\/\?]+))?$`, with its three groups. */
  ghost predicate IsDownloadPath(path: string, store: string, id: string, name: Option<string>) {
    && path == "/" + store + "/" + id + (if name.Some? then "/" + name.value else "")
    && Segment(store) && Segment(id) && (name.Some? ==> Segment(name.value))
  }

  /** The pieces of `path` between slashes, when `path` starts with a slash. */
  function Pieces(path: string): (ps: Option<seq<string>>)
    ensures ps.Some? ==> |ps.value| >= 1 && path == "/" + Join(ps.value, '/')
  {
    if path != [] && path[0] == '/' then
      assert path == "/" + path[1..];
      Some(Split(path[1..], '/'))
    else None
  }

  /** The match of the OPTIONS and POST pattern: store name and file id, or None. */
  function MatchStoreFile(path: string): (m: Option<(string, string)>)
    ensures m.Some? ==> IsStoreFilePath(path, m.value.0, m.value.1)
  {
    match Pieces(path)
    case Some(ps) =>
      if |ps| == 2 && Segment(ps[0]) && Segment(ps[1]) then
        assert Join(ps, '/') == ps[0] + "/" + ps[1];
        Some((ps[0], ps[1]))
      else None
    case None => None
  }

  /** Every string of the pattern's language is matched, with the right groups. */
  lemma {:induction false} MatchStoreFileComplete(path: string, store: string, id: string)
    requires IsStoreFilePath(path, store, id)
    ensures MatchStoreFile(path) == Some((store, id))
  {
    assert path[1..] == store + "/" + id;
    assert Join([store, id], '/') == store + "/" + id;
    SplitJoin([store, id], '/');
  }

  /** The groups of the GET pattern. */
  datatype DownloadMatch = DownloadMatch(store: string, idSegment: string, name: Option<string>)

  /** The match of the GET pattern, or None. */
  function MatchDownload(path: string): (m: Option<DownloadMatch>)
    ensures m.Some? ==> IsDownloadPath(path, m.value.store, m.value.idSegment, m.value.name)
  {
    match Pieces(path)
    case Some(ps) =>
      if (|ps| == 2 || |ps| == 3) && forall k :: 0 <= k < |ps| ==> Segment(ps[k]) then
        if |ps| == 2 then
          assert Join(ps, '/') == ps[0] + "/" + ps[1];
          Some(DownloadMatch(ps[0], ps[1], None))
        else
          assert Join(ps, '/') == ps[0] + "/" + ps[1] + "/" + ps[2] by {
            assert Join(ps[1..], '/') == ps[1] + "/" + ps[2];
          }
          Some(DownloadMatch(ps[0], ps[1], Some(ps[2])))
      else None
    case None => None
  }

  /** Every string of the GET pattern's language is matched, with the right groups. */
  lemma {:induction false} MatchDownloadComplete(path: string, store: string, id: string, name: Option<string>)
    requires IsDownloadPath(path, store, id, name)
    ensures MatchDownload(path) == Some(DownloadMatch(store, id, name))
  {
    if name.Some? {
      var n := name.value;
      assert path[1..] == store + "/" + id + "/" + n;
      assert Join([store, id, n], '/') == store + "/" + id + "/" + n by {
        assert [store, id, n][1..] == [id, n];
        assert Join([id, n], '/') == id + "/" + n;
      }
      SplitJoin([store, id, n], '/');
    } else {
      assert path[1..] == store + "/" + id;
      assert Join([store, id], '/') == store + "/" + id;
      SplitJoin([store, id], '/');
    }
  }

  /** The file id of a download: the id segment up to, and without, its first `.`. */
  function FileIdOf(segment: string): (id: string)
    ensures id <= segment
    ensures '.' !in id
    ensures '.' !in segment ==> id == segment
    ensures |id| < |segment| ==> segment[|id|] == '.'
  {
    var index := IndexOf(segment, ".");
    if index != -1 then
      assert segment[index] == '.' by {
        assert segment[index..index + 1] == [segment[index]];
      }
      assert forall j :: 0 <= j < index ==> segment[j] != '.' by {
        forall j | 0 <= j < index ensures segment[j] != '.' {
          assert !OccursAt(segment, ".", j);
          assert segment[j..j + 1] == [segment[j]];
        }
      }
      segment[..index]
    else
      assert '.' !in segment by {
        forall j | 0 <= j < |segment| ensures segment[j] != '.' {
          assert !OccursAt(segment, ".", j);
          assert segment[j..j + 1] == [segment[j]];
        }
      }
      segment
  }
}
