/** Pure path arithmetic, as `pathlib.PurePath` does it for paths without `..`. */
module Paths {

  /** A path: the anchor (the root, or `.`), or a named entry inside a directory. */
  datatype Path = Anchor | Child(dir: Path, name: string)

  /** The fixed name of the configuration file. */
  const EnvFileName: string := ".env"

  /** How many entries separate the path from the anchor. */
  function Depth(p: Path): nat
  {
    match p
    case Anchor => 0
    case Child(d, _) => Depth(d) + 1
  }

  /** `a` is `b` itself or one of the directories `b` lies in. */
  predicate Encloses(a: Path, b: Path)
  {
    a == b || (b.Child? && Encloses(a, b.dir))
  }

  /** `p.parent`: the directory holding `p`; the anchor is its own parent. */
  function Parent(p: Path): Path
  {
    match p
    case Anchor => Anchor
    case Child(d, _) => d
  }

  /** `dir / name`. */
  function Join(dir: Path, name: string): Path
  {
    Child(dir, name)
  }

  /** `p.parent` applied `n` times: a directory enclosing `p`, `n` levels up or at the anchor. */
  function Ancestor(p: Path, n: nat): (q: Path)
    ensures Depth(q) == if n <= Depth(p) then Depth(p) - n else 0
    ensures Encloses(q, p)
  {
    if n == 0 then p
    else
      var q := Ancestor(p, n - 1);
      assert Encloses(Parent(q), q);
      EnclosesTransitive(Parent(q), q, p);
      Parent(q)
  }

  /** Enclosure is transitive. */
  lemma {:induction false} EnclosesTransitive(a: Path, b: Path, c: Path)
    requires Encloses(a, b) && Encloses(b, c)
    ensures Encloses(a, c)
    decreases c
  {
    if b != c {
      EnclosesTransitive(a, b, c.dir);
    }
  }

  /** A directory enclosing `b` is never deeper than `b`. */
  lemma {:induction false} EnclosersNoDeeper(b: Path)
    ensures forall a :: Encloses(a, b) ==> Depth(a) <= Depth(b)
  {
    match b
    case Anchor =>
    case Child(d, _) =>
      EnclosersNoDeeper(d);
  }

  /** The first five ancestors, written as repeated parents. */
  lemma AncestorsUpToFive(p: Path)
    ensures Ancestor(p, 1) == Parent(p)
    ensures Ancestor(p, 2) == Parent(Parent(p))
    ensures Ancestor(p, 3) == Parent(Parent(Parent(p)))
    ensures Ancestor(p, 4) == Parent(Parent(Parent(Parent(p))))
    ensures Ancestor(p, 5) == Parent(Parent(Parent(Parent(Parent(p)))))
  {
    assert Ancestor(p, 0) == p;
  }
}
