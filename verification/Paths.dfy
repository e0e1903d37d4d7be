/** Slash-separated paths and their segments. */
module Paths {
  import opened Common

  /** Every part between slashes, empty ones included; never an empty list. */
  function Split(s: string): (parts: seq<string>)
    ensures parts != []
  {
    if s == "" then [""]
    else
      var rest := Split(s[1..]);
      if s[0] == '/' then [""] + rest else [[s[0]] + rest[0]] + rest[1..]
  }

  /** Each segment behind its slash. */
  function Path(segments: seq<string>): string {
    if segments == [] then "" else "/" + segments[0] + Path(segments[1..])
  }

  predicate SlashFree(s: string) {
    forall i :: 0 <= i < |s| ==> s[i] != '/'
  }

  lemma Tails(a: string, b: string)
    requires "/" + a == "/" + b
    ensures a == b
  {
    assert a == ("/" + a)[1..] == ("/" + b)[1..] == b;
  }

  lemma {:induction false} PathOfSplit(s: string)
    ensures Path(Split(s)) == "/" + s
  {
    if s != "" {
      PathOfSplit(s[1..]);
      var rest := Split(s[1..]);
      assert s == [s[0]] + s[1..];
      if s[0] == '/' {
        assert Split(s)[1..] == rest;
      } else {
        assert Split(s)[1..] == rest[1..];
        var more := Path(rest[1..]);
        Regroup("/", rest[0], more);
        Tails(rest[0] + more, s[1..]);
        calc {
          Path(Split(s));
          "/" + ([s[0]] + rest[0]) + more;
          { Regroup("/", [s[0]] + rest[0], more); }
          "/" + (([s[0]] + rest[0]) + more);
          { Regroup([s[0]], rest[0], more); }
          "/" + ([s[0]] + (rest[0] + more));
        }
      }
    }
  }

  lemma {:induction false} SplitConcat(x: string, y: string)
    ensures Split(x + "/" + y) == Split(x) + Split(y)
  {
    if x == "" {
      assert ("" + "/" + y)[1..] == y;
    } else {
      SplitConcat(x[1..], y);
      SplitStep(x, y, Split(x[1..]), Split(y));
    }
  }

  lemma SplitStep(x: string, y: string, front: seq<string>, back: seq<string>)
    requires x != "" && front == Split(x[1..]) && Split(x[1..] + "/" + y) == front + back
    ensures Split(x + "/" + y) == Split(x) + back
  {
    var z := x + "/" + y;
    assert z[1..] == x[1..] + "/" + y && z[0] == x[0] && z != "";
    if x[0] == '/' {
      Regroup([""], front, back);
    } else {
      assert (front + back)[0] == front[0] && (front + back)[1..] == front[1..] + back;
      Regroup([[x[0]] + front[0]], front[1..], back);
    }
  }

  lemma {:induction false} SplitSlashFree(x: string)
    requires SlashFree(x)
    ensures Split(x) == [x]
  {
    if x != "" {
      SplitSlashFree(x[1..]);
      assert [x[0]] + x[1..] == x;
    }
  }

  lemma {:induction false} SplitParts(s: string)
    ensures forall i :: 0 <= i < |Split(s)| ==> SlashFree(Split(s)[i])
  {
    if s != "" {
      SplitParts(s[1..]);
      var rest := Split(s[1..]);
      if s[0] != '/' {
        assert SlashFree(rest[0]);
        assert SlashFree([s[0]] + rest[0]);
      }
    }
  }

  lemma {:induction false} PathConcat(a: seq<string>, b: seq<string>)
    ensures Path(a + b) == Path(a) + Path(b)
  {
    if a == [] {
      assert a + b == b;
    } else {
      PathConcat(a[1..], b);
      assert (a + b)[1..] == a[1..] + b;
    }
  }

  lemma {:induction false} SplitOfPath(segments: seq<string>)
    requires segments != [] && forall i :: 0 <= i < |segments| ==> SlashFree(segments[i])
    ensures Path(segments) != "" && Path(segments)[0] == '/' && Split(Path(segments)[1..]) == segments
  {
    var first, rest := segments[0], segments[1..];
    SplitSlashFree(first);
    if rest == [] {
      assert Path(segments)[1..] == first;
    } else {
      SplitOfPath(rest);
      assert Path(segments)[1..] == first + "/" + Path(rest)[1..];
      SplitConcat(first, Path(rest)[1..]);
    }
  }

  lemma SplitAndBack(path: string)
    requires path != "" && path[0] == '/'
    ensures Path(Split(path[1..])) == path
  {
    PathOfSplit(path[1..]);
    assert path == "/" + path[1..];
  }

  lemma LastPartEmpty(s: string)
    requires s == "" || s[|s| - 1] == '/'
    ensures Split(s)[|Split(s)| - 1] == ""
  {
    if s != "" {
      var x := s[..|s| - 1];
      assert s == x + "/" + "";
      SplitConcat(x, "");
    }
  }

  lemma PathOfOne(segment: string)
    ensures Path([segment]) == "/" + segment
  {
    assert [segment][1..] == [];
  }

  lemma {:induction false} LastStep(segments: seq<string>)
    requires segments != []
    ensures Path(segments) == Path(segments[..|segments| - 1]) + "/" + segments[|segments| - 1]
  {
    var front, last := segments[..|segments| - 1], segments[|segments| - 1];
    calc {
      Path(segments);
      { assert segments == front + [last]; }
      Path(front + [last]);
      { PathConcat(front, [last]); PathOfOne(last); }
      Path(front) + ("/" + last);
      { Regroup(Path(front), "/", last); }
      Path(front) + "/" + last;
    }
  }

  lemma SegmentsContinue(x: string, z: string)
    requires Split(x) < Split(z)
    ensures x + "/" <= z
  {
    var rest := Split(z)[|Split(x)|..];
    assert Split(z) == Split(x) + rest;
    PathConcat(Split(x), rest);
    PathOfSplit(x);
    PathOfSplit(z);
    var tail := rest[0] + Path(rest[1..]);
    Regroup("/", rest[0], Path(rest[1..]));
    Regroup("/", x, "/" + tail);
    Tails(z, x + ("/" + tail));
  }

  /** One path continues another past a slash exactly when its segments continue
      the other's. */
  lemma SlashPrefixIff(x: string, z: string)
    ensures x + "/" <= z <==> Split(x) < Split(z)
  {
    if x + "/" <= z {
      var y := z[|x| + 1..];
      assert z == x + "/" + y;
      SplitConcat(x, y);
    }
    if Split(x) < Split(z) {
      SegmentsContinue(x, z);
    }
  }

  lemma SlashPrefixBehindSlash(x: string, z: string)
    ensures "/" + x + "/" <= "/" + z <==> x + "/" <= z
  {
    Regroup("/", x, "/");
    if x + "/" <= z {
      assert z == x + "/" + z[|x| + 1..];
      Regroup("/", x + "/", z[|x| + 1..]);
    }
    if "/" + (x + "/") <= "/" + z {
      assert z == ("/" + z)[1..];
    }
  }
}
