/** Peer identifiers and the order Go's `<` puts on them: strings compared byte by byte. */
module PeerIds {

  datatype PeerId = PeerId(name: string)

  predicate Less(a: PeerId, b: PeerId) { TextLess(a.name, b.name) }

  predicate TextLess(a: string, b: string)
  {
    |b| > 0 && (|a| == 0 || a[0] < b[0] || (a[0] == b[0] && TextLess(a[1..], b[1..])))
  }

  lemma {:induction false} TextTrichotomy(a: string, b: string)
    ensures TextLess(a, b) || a == b || TextLess(b, a)
    ensures !(TextLess(a, b) && TextLess(b, a))
    ensures a == b ==> !TextLess(a, b)
  {
    if |a| > 0 && |b| > 0 && a[0] == b[0] {
      TextTrichotomy(a[1..], b[1..]);
      if a[1..] == b[1..] {
        assert a == [a[0]] + a[1..] && b == [b[0]] + b[1..];
      }
    }
  }

  lemma {:induction false} TextTransitive(a: string, b: string, c: string)
    requires TextLess(a, b) && TextLess(b, c)
    ensures TextLess(a, c)
  {
    if |a| > 0 && a[0] == b[0] && b[0] == c[0] {
      TextTransitive(a[1..], b[1..], c[1..]);
    }
  }

  lemma Trichotomy(a: PeerId, b: PeerId)
    ensures Less(a, b) || a == b || Less(b, a)
    ensures !(Less(a, b) && Less(b, a))
    ensures a == b ==> !Less(a, b)
  {
    TextTrichotomy(a.name, b.name);
  }

  lemma Transitive(a: PeerId, b: PeerId, c: PeerId)
    requires Less(a, b) && Less(b, c)
    ensures Less(a, c)
  {
    TextTransitive(a.name, b.name, c.name);
  }

  /** A strict total order. */
  lemma IsStrictTotalOrder(a: PeerId, b: PeerId, c: PeerId)
    ensures !Less(a, a) && (Less(a, b) || a == b || Less(b, a))
    ensures Less(a, b) ==> !Less(b, a)
    ensures Less(a, b) && Less(b, c) ==> Less(a, c)
  {
    Trichotomy(a, a);
    Trichotomy(a, b);
    if Less(a, b) && Less(b, c) {
      Transitive(a, b, c);
    }
  }

  /** They first differ at `i`: one ends there, or has the smaller character. */
  ghost predicate FirstDiffersAt(a: string, b: string, i: nat)
  {
    i <= |a| && i < |b| && a[..i] == b[..i] && (i == |a| || a[i] < b[i])
  }

  /** The order is that of a dictionary. */
  lemma {:induction false} TextLessIff(a: string, b: string)
    ensures TextLess(a, b) <==> exists i: nat :: FirstDiffersAt(a, b, i)
  {
    if a == [] || b == [] || a[0] != b[0] {
      if TextLess(a, b) {
        assert FirstDiffersAt(a, b, 0);
      }
    } else {
      TextLessIff(a[1..], b[1..]);
      if i: nat :| FirstDiffersAt(a[1..], b[1..], i) {
        assert a[..i + 1] == [a[0]] + a[1..][..i] && b[..i + 1] == [b[0]] + b[1..][..i];
        assert FirstDiffersAt(a, b, i + 1);
      }
      if i: nat :| FirstDiffersAt(a, b, i) {
        assert a[1..][..i - 1] == a[..i][1..] && b[1..][..i - 1] == b[..i][1..];
        assert FirstDiffersAt(a[1..], b[1..], i - 1);
      }
    }
  }
}
