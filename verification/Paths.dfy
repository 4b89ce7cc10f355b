/** Which file a name means: names that differ only in spelling, like "./a" and "a", mean the same one. */
module Paths {
  import opened Sequences

  /** The names on the way from the root to a file, with no "." or ".." left. */
  type Location = seq<string>

  function Enter(at: Location, name: string): Location
  {
    if name == "" || name == "." then at
    else if name == ".." then (if at == [] then [] else at[..|at| - 1])
    else at + [name]
  }

  function Walk(at: Location, names: seq<string>): Location
    decreases names
  {
    if names == [] then at else Walk(Enter(at, names[0]), names[1..])
  }

  predicate Rooted(path: string)
  {
    path != "" && path[0] == '/'
  }

  /** The file that a path names for a process in the directory `cwd`. */
  function Locate(cwd: Location, path: string): Location
  {
    Walk(if Rooted(path) then [] else cwd, Split(path, "/"))
  }

  /** The file that path.Join(dir, name) names: Join leaves out empty parts, and cleaning keeps the place. */
  function Joined(cwd: Location, dir: string, name: string): Location
  {
    Locate(cwd, if dir == "" then name else dir + "/" + name)
  }

  /** A dot in front changes nothing, and two dots undo a name. */
  lemma SpellingsAgree(cwd: Location, name: string, at: Location, dir: string)
    ensures !Rooted(name) ==> Locate(cwd, "./" + name) == Locate(cwd, name)
    ensures dir != "" && dir != "." && dir != ".." ==> Walk(at, [dir, ".."]) == at
  {
    SplitAtSeparator(".", '/', name);
    SplitPlain(".", '/');
    assert "." + "/" + name == "./" + name;
    assert (["."] + Split(name, "/"))[1..] == Split(name, "/");
    assert Walk(at, [dir, ".."]) == Walk(Enter(at, dir), [".."]) == Walk(Enter(Enter(at, dir), ".."), []);
  }

  lemma {:induction false} WalkConcat(at: Location, a: seq<string>, b: seq<string>)
    ensures Walk(at, a + b) == Walk(Walk(at, a), b)
    decreases |a|
  {
    if a == [] {
      assert a + b == b;
    } else {
      assert (a + b)[0] == a[0] && (a + b)[1..] == a[1..] + b;
      WalkConcat(Enter(at, a[0]), a[1..], b);
    }
  }

  /** A joined name is walked from the directory, even if it is rooted. */
  lemma JoinedWalks(cwd: Location, dir: string, name: string)
    requires dir != ""
    ensures Joined(cwd, dir, name) == Walk(Locate(cwd, dir), Split(name, "/"))
  {
    SplitAtSeparator(dir, '/', name);
    assert Rooted(dir + "/" + name) <==> Rooted(dir);
    WalkConcat(if Rooted(dir) then [] else cwd, Split(dir, "/"), Split(name, "/"));
  }

  /** Without "..", a walk only goes down, the same way from everywhere. */
  lemma {:induction false} WalkDown(at: Location, names: seq<string>)
    requires ".." !in names
    ensures Walk(at, names) == at + Walk([], names)
    decreases |names|
  {
    if names == [] {
      assert at + [] == at;
    } else {
      var next := Enter([], names[0]);
      assert Enter(at, names[0]) == at + next;
      WalkDown(at + next, names[1..]);
      WalkDown(next, names[1..]);
      Assoc(at, next, Walk([], names[1..]));
    }
  }

  /** What a name is relative to: the root or the working directory. */
  function Base(cwd: Location, name: string): Location
  {
    if Rooted(name) then [] else cwd
  }

  /** Joining a directory to a name keeps the file exactly if there is none, or it is what the name is relative to. */
  lemma JoinKeepsFileExactlyWhen(cwd: Location, dir: string, name: string)
    requires ".." !in Split(name, "/")
    ensures Joined(cwd, dir, name) == Locate(cwd, name) <==> dir == "" || Locate(cwd, dir) == Base(cwd, name)
  {
    if dir != "" {
      var at, base, down := Locate(cwd, dir), Base(cwd, name), Walk([], Split(name, "/"));
      JoinedWalks(cwd, dir, name);
      WalkDown(at, Split(name, "/"));
      WalkDown(base, Split(name, "/"));
      if at + down == base + down {
        assert |at| == |base| && (at + down)[..|at|] == (base + down)[..|base|];
      }
    }
  }

  /** One name, of a directory or a file. */
  predicate Simple(name: string)
  {
    name != "" && name != "." && name != ".." && '/' !in name
  }

  lemma SimpleLocates(cwd: Location, name: string)
    requires Simple(name)
    ensures Split(name, "/") == [name] && Locate(cwd, name) == cwd + [name]
  {
    SplitPlain(name, '/');
    assert Walk(cwd, [name]) == Walk(Enter(cwd, name), []);
  }

  /** So a directory below the working directory moves a file. */
  lemma SimpleJoinMoves(cwd: Location, dir: string, name: string)
    requires Simple(dir) && Simple(name)
    ensures Joined(cwd, dir, name) != Locate(cwd, name)
  {
    SimpleLocates(cwd, dir);
    SimpleLocates(cwd, name);
    JoinKeepsFileExactlyWhen(cwd, dir, name);
  }
}
