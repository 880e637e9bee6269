/** Windows paths as text. */
module Paths {

  /** Joins with one backslash; none after an empty parent or one that already ends in a backslash. */
  function JoinPath(parent: string, name: string): string {
    if parent != "" && parent[|parent| - 1] != '\\' then parent + "\\" + name else parent + name
  }

  predicate EndsWithSeparator(path: string) {
    path != "" && path[|path| - 1] == '\\'
  }

  /** The streaming resolver joins by itself, and puts a backslash after an empty base as well. */
  function JoinMftPath(base: string, child: string): string {
    base + (if EndsWithSeparator(base) then "" else "\\") + child
  }

  // ---------- What a path says, whatever joined it ----------

  /** The pieces of a text between its backslashes, without the empty ones. */
  function Pieces(path: string): (pieces: seq<string>)
    ensures path != "" && path[|path| - 1] != '\\' ==> pieces != []
  {
    if path == "" then []
    else
      var n := |path| - 1;
      var before := Pieces(path[..n]);
      if path[n] == '\\' then before
      else if n == 0 || path[n - 1] == '\\' then before + [[path[n]]]
      else before[..|before| - 1] + [before[|before| - 1] + [path[n]]]
  }

  /** Windows allows no backslash in a name, and no empty name. */
  predicate IsPlainName(name: string) {
    name != "" && '\\' !in name
  }

  /** A text without the one backslash that it may end in. */
  function Unterminated(path: string): string {
    if path != "" && path[|path| - 1] == '\\' then path[..|path| - 1] else path
  }

  /** Names, each after a backslash. */
  function Spelled(names: seq<string>): string {
    if names == [] then "" else Spelled(names[..|names| - 1]) + "\\" + names[|names| - 1]
  }

  lemma {:induction false} PiecesAppend(path: string, name: string)
    requires IsPlainName(name)
    ensures Pieces(path + "\\" + name) == Pieces(path) + [name]
  {
    var n := |name| - 1;
    var whole := path + "\\" + name;
    assert whole[..|whole| - 1] == path + "\\" + name[..n];
    if n == 0 {
      assert name == [name[0]] && path + "\\" + name[..n] == path + "\\";
      assert (path + "\\")[..|path|] == path;
    } else {
      assert '\\' !in name[..n];
      PiecesAppend(path, name[..n]);
      assert name == name[..n] + [name[n]];
      assert whole[|whole| - 2] == name[n - 1] != '\\';
    }
  }

  lemma UnterminatedPieces(path: string)
    ensures Pieces(Unterminated(path)) == Pieces(path)
  {
  }

  /** A name after a backslash is one more piece. */
  lemma {:induction false} SpelledPieces(path: string, names: seq<string>)
    requires forall name <- names :: IsPlainName(name)
    ensures Pieces(Unterminated(path) + Spelled(names)) == Pieces(path) + names
  {
    hide Pieces, Unterminated;
    if names == [] {
      UnterminatedPieces(path);
      assert Unterminated(path) + "" == Unterminated(path);
    } else {
      var n := |names| - 1;
      SpelledPieces(path, names[..n]);
      PiecesAppend(Unterminated(path) + Spelled(names[..n]), names[n]);
      assert Unterminated(path) + Spelled(names) ==
               Unterminated(path) + Spelled(names[..n]) + "\\" + names[n];
      assert names == names[..n] + [names[n]];
    }
  }

  /** A stored path and a name: one piece more, after exactly one backslash unless the path is empty. */
  lemma JoinedText(parent: string, name: string)
    ensures JoinPath(parent, name) == if parent == "" then name else Unterminated(parent) + "\\" + name
  {
    if parent == "" {
      assert "" + name == name;
    } else if parent[|parent| - 1] == '\\' {
      assert parent == Unterminated(parent) + "\\";
    }
  }

  lemma JoinedPieces(parent: string, name: string)
    requires IsPlainName(name)
    ensures Pieces(JoinPath(parent, name)) == Pieces(parent) + [name]
  {
    hide Pieces, JoinPath, Unterminated;
    JoinedText(parent, name);
    if parent == "" {
      PiecesOfName(name);
      NoPieces();
    } else {
      PiecesAppend(Unterminated(parent), name);
      UnterminatedPieces(parent);
    }
  }

  lemma NoPieces()
    ensures Pieces("") == []
  {
  }

  lemma {:induction false} PiecesOfName(name: string)
    requires IsPlainName(name)
    ensures Pieces(name) == [name]
  {
    var n := |name| - 1;
    if n == 0 {
      assert name == [name[0]] && name[..0] == "";
    } else {
      assert '\\' !in name[..n];
      PiecesOfName(name[..n]);
      assert name == name[..n] + [name[n]];
    }
  }
}
