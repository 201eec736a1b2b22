/** Names shared by every part of the model. */
module Base {
  datatype RepoId = RepoId(name: string)

  datatype Path = Path(text: string)

  /** Of a content hash only equality and emptiness are ever looked at. */
  datatype Hash = Hash(hex: string)

  const NoHash := Hash("")

  datatype Option<+T> = None | Some(value: T)

  /** A number is `n` times something plus a remainder below `n` in one way only. */
  lemma RemainderIsUnique(laps: nat, x: nat, n: nat)
    requires x < n
    ensures (n * laps + x) % n == x
  {
    var y := n * laps + x;
    var d := y / n - laps;
    assert y == n * (y / n) + y % n;
    assert n * d == n * (y / n) - n * laps;
    assert n * d == x - y % n;
  }
}
