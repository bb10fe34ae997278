/** Globs as a target writes them: `*` is one part of a path, and `**` any number of them. */
module Globs {
  import opened Paths

  const ONE := "*"
  const ANY := "**"

  /** Part by part; `**` takes none, or one more. */
  predicate Matches(pattern: seq<string>, path: Path)
    decreases |pattern| + |path|
  {
    if pattern == [] then path == []
    else if pattern[0] == ANY then Matches(pattern[1..], path) || (path != [] && Matches(pattern, path[1..]))
    else path != [] && (pattern[0] == ONE || pattern[0] == path[0]) && Matches(pattern[1..], path[1..])
  }

  /** What one part of a glob stands for. */
  predicate StandsFor(part: string, piece: Path) {
    part == ANY || (|piece| == 1 && (part == ONE || part == piece[0]))
  }

  function Joined(pieces: seq<Path>): Path {
    if pieces == [] then [] else pieces[0] + Joined(pieces[1..])
  }

  /** The path cut into a piece for each part of the glob. */
  ghost predicate CutFor(pattern: seq<string>, path: Path, pieces: seq<Path>) {
    && |pieces| == |pattern| && Joined(pieces) == path
    && forall i | 0 <= i < |pattern| :: StandsFor(pattern[i], pieces[i])
  }

  lemma {:induction false} CutOf(pattern: seq<string>, path: Path) returns (pieces: seq<Path>)
    requires Matches(pattern, path)
    ensures CutFor(pattern, path, pieces)
    decreases |pattern| + |path|
  {
    if pattern == [] {
      pieces := [];
    } else if pattern[0] == ANY && Matches(pattern[1..], path) {
      var rest := CutOf(pattern[1..], path);
      pieces := [[]] + rest;
      assert pieces[1..] == rest;
    } else if pattern[0] == ANY {
      var rest := CutOf(pattern, path[1..]);
      pieces := [[path[0]] + rest[0]] + rest[1..];
      assert pieces[1..] == rest[1..];
      assert Joined(pieces) == ([path[0]] + rest[0]) + Joined(rest[1..]);
      assert path == [path[0]] + path[1..];
    } else {
      var rest := CutOf(pattern[1..], path[1..]);
      pieces := [[path[0]]] + rest;
      assert pieces[1..] == rest;
      assert path == [path[0]] + path[1..];
    }
  }

  lemma {:induction false} CutMatches(pattern: seq<string>, path: Path, pieces: seq<Path>)
    requires CutFor(pattern, path, pieces)
    ensures Matches(pattern, path)
    decreases |pattern| + |path|
  {
    if pattern != [] {
      var (piece, rest) := (pieces[0], Joined(pieces[1..]));
      assert StandsFor(pattern[0], piece);
      forall i | 0 <= i < |pattern| - 1 ensures StandsFor(pattern[1..][i], pieces[1..][i]) {
        assert StandsFor(pattern[i + 1], pieces[i + 1]);
      }
      if pattern[0] == ANY && piece != [] {
        var shorter := [piece[1..]] + pieces[1..];
        assert shorter[1..] == pieces[1..];
        assert piece == [piece[0]] + piece[1..];
        assert path[1..] == piece[1..] + rest;
        forall i | 0 <= i < |pattern| ensures StandsFor(pattern[i], shorter[i]) {
          assert StandsFor(pattern[i], pieces[i]);
        }
        CutMatches(pattern, path[1..], shorter);
      } else {
        assert path[|piece|..] == rest;
        CutMatches(pattern[1..], rest, pieces[1..]);
      }
    }
  }

  /** A glob matches exactly the paths that can be cut into a piece for each of its parts. */
  lemma MatchesIfCut(pattern: seq<string>, path: Path)
    ensures Matches(pattern, path) <==> exists pieces :: CutFor(pattern, path, pieces)
  {
    if Matches(pattern, path) {
      var pieces := CutOf(pattern, path);
    }
    if pieces :| CutFor(pattern, path, pieces) {
      CutMatches(pattern, path, pieces);
    }
  }
}
