/** Which paths the coordinator ignores, refuses or stores, said by the parts of their text. */
module Paths {
  import opened Base
  import opened Replication

  ghost predicate StartsWith(s: string, x: string) { exists a: string :: s == x + a }

  ghost predicate EndsWith(s: string, x: string) { exists a: string :: s == a + x }

  ghost predicate Contains(s: string, x: string) { exists a: string, b: string :: s == a + x + b }

  lemma StartsWithIff(s: string, x: string)
    ensures StartsWith(s, x) <==> |x| <= |s| && s[..|x|] == x
  {
    if |x| <= |s| && s[..|x|] == x {
      assert s == x + s[|x|..];
    }
  }

  lemma EndsWithIff(s: string, x: string)
    ensures EndsWith(s, x) <==> |x| <= |s| && s[|s| - |x|..] == x
  {
    if |x| <= |s| && s[|s| - |x|..] == x {
      assert s == s[..|s| - |x|] + x;
    }
  }

  lemma ContainsAt(s: string, x: string, i: nat)
    requires i + |x| <= |s| && s[i..i + |x|] == x
    ensures Contains(s, x)
  {
    assert s == s[..i] + x + s[i + |x|..];
  }

  lemma ContainedSomewhere(s: string, x: string) returns (i: nat)
    requires Contains(s, x)
    ensures i + |x| <= |s| && s[i..i + |x|] == x
  {
    var a: string, b: string :| s == a + x + b;
    i := |a|;
  }

  lemma HasDotDotIff(p: Path)
    ensures HasDotDot(p) <==> Contains(p.text, "..")
  {
    if HasDotDot(p) {
      var i :| 0 <= i < |p.text| - 1 && p.text[i] == '.' && p.text[i + 1] == '.';
      assert p.text[i..i + 2] == "..";
      ContainsAt(p.text, "..", i);
    }
    if Contains(p.text, "..") {
      var i := ContainedSomewhere(p.text, "..");
      assert p.text[i] == ".."[0] && p.text[i + 1] == ".."[1];
    }
  }

  lemma IsAbsoluteIff(p: Path)
    ensures IsAbsolute(p) <==> StartsWith(p.text, "/")
  {
    StartsWithIff(p.text, "/");
    assert |p.text| > 0 ==> p.text[..1] == [p.text[0]];
  }

  lemma IsTempIff(p: Path)
    ensures IsTemp(p) <==> EndsWith(p.text, ".tmp")
  {
    EndsWithIff(p.text, ".tmp");
  }

  /** Peers refuse temporary files, absolute paths, and any with two dots in a row; content from a
      response is stored under all but the last two. */
  lemma RefusedIff(p: Path)
    ensures Refused(p) <==> EndsWith(p.text, ".tmp") || StartsWith(p.text, "/") || Contains(p.text, "..")
    ensures Storable(p) <==> !StartsWith(p.text, "/") && !Contains(p.text, "..")
  {
    IsTempIff(p);
    IsAbsoluteIff(p);
    HasDotDotIff(p);
  }

  predicate StepsUpAt(s: string, i: int)
  {
    0 <= i < |s| - 2 && s[i] == '.' && s[i + 1] == '.' && s[i + 2] == '/'
  }

  lemma StepsUpIff(s: string)
    ensures Contains(s, "../") <==> exists i :: StepsUpAt(s, i)
  {
    if i :| StepsUpAt(s, i) {
      assert s[i..i + 3] == "../";
      ContainsAt(s, "../", i);
    }
    if Contains(s, "../") {
      var i := ContainedSomewhere(s, "../");
      assert s[i] == "../"[0] && s[i + 1] == "../"[1] && s[i + 2] == "../"[2];
      assert StepsUpAt(s, i);
    }
  }

  lemma StartsUpIff(s: string)
    ensures StartsWith(s, "..") <==> |s| >= 2 && s[0] == '.' && s[1] == '.'
  {
    StartsWithIff(s, "..");
    assert |s| >= 2 ==> s[..2] == [s[0], s[1]];
  }

  /** The check before a stream is looser: two dots count at the start or before a slash. */
  lemma EscapesIff(p: Path)
    ensures Escapes(p) <==> StartsWith(p.text, "/") || StartsWith(p.text, "..") || Contains(p.text, "../")
  {
    IsAbsoluteIff(p);
    StartsUpIff(p.text);
    StepsUpIff(p.text);
    assert (exists i :: StepsUpAt(p.text, i)) <==>
      exists i | 0 <= i < |p.text| - 2 :: p.text[i] == '.' && p.text[i + 1] == '.' && p.text[i + 2] == '/' by {
      if i :| 0 <= i < |p.text| - 2 && p.text[i] == '.' && p.text[i + 1] == '.' && p.text[i + 2] == '/' {
        assert StepsUpAt(p.text, i);
      }
    }
  }
}
