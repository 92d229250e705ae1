/** Cutting text at a separator and lists into pieces of bounded length, and putting them together again. */
module Text {
  import opened Prelude

  /** `str::split` with a character: always at least one piece. */
  function Split(sep: char, s: string): (pieces: seq<string>)
    ensures |pieces| > 0
    decreases |s|
  {
    var i := IndexOf(s, sep);
    if i == |s| then [s] else [s[..i]] + Split(sep, s[i + 1..])
  }

  function Rejoin(sep: char, pieces: seq<string>): string
    requires |pieces| > 0
  {
    if |pieces| == 1 then pieces[0] else pieces[0] + [sep] + Rejoin(sep, pieces[1..])
  }

  ghost predicate Without(sep: char, pieces: seq<string>) {
    forall i :: 0 <= i < |pieces| ==> sep !in pieces[i]
  }

  /** The pieces hold no separator, and with separators between them they are the text again. */
  lemma {:induction false} SplitRejoins(sep: char, s: string)
    ensures Without(sep, Split(sep, s)) && Rejoin(sep, Split(sep, s)) == s
    decreases |s|
  {
    hide IndexOf;
    var i := IndexOf(s, sep);
    if i == |s| {
      assert s[..i] == s;
    } else {
      var rest := Split(sep, s[i + 1..]);
      SplitRejoins(sep, s[i + 1..]);
      hide Split, Rejoin;
      RejoinCons(sep, s[..i], rest);
      SplitCons(sep, s);
      assert s == s[..i] + [sep] + s[i + 1..];
    }
  }

  lemma RejoinCons(sep: char, piece: string, rest: seq<string>)
    requires |rest| > 0
    ensures Rejoin(sep, [piece] + rest) == piece + [sep] + Rejoin(sep, rest)
  {
    assert ([piece] + rest)[1..] == rest;
  }

  lemma SplitCons(sep: char, s: string)
    requires IndexOf(s, sep) < |s|
    ensures Split(sep, s) == [s[..IndexOf(s, sep)]] + Split(sep, s[IndexOf(s, sep) + 1..])
  {
  }

  /** There is only one way to take a text apart like this. */
  lemma {:induction false} RejoinSplits(sep: char, pieces: seq<string>)
    requires |pieces| > 0 && Without(sep, pieces)
    ensures Split(sep, Rejoin(sep, pieces)) == pieces
  {
    var s := Rejoin(sep, pieces);
    IndexOfUnique(s, sep, |pieces[0]|);
    if |pieces| > 1 {
      RejoinSplits(sep, pieces[1..]);
      assert s[..|pieces[0]|] == pieces[0] && s[|pieces[0]| + 1..] == Rejoin(sep, pieces[1..]);
    }
  }

  /** `slice::chunks`. */
  function Chunks<T>(s: seq<T>, size: nat): (chunks: seq<seq<T>>)
    requires size > 0
    ensures forall i :: 0 <= i < |chunks| ==> 0 < |chunks[i]| <= size
    decreases |s|
  {
    if s == [] then []
    else if |s| <= size then [s]
    else [s[..size]] + Chunks(s[size..], size)
  }

  lemma {:induction false} ChunksRejoin<T>(s: seq<T>, size: nat)
    requires size > 0
    ensures Flatten(Chunks(s, size)) == s
    ensures forall i :: 0 <= i < |Chunks(s, size)| - 1 ==> |Chunks(s, size)[i]| == size
    decreases |s|
  {
    if s != [] && |s| <= size {
      assert Flatten([s]) == s + Flatten<T>([]);
    } else if s != [] {
      ChunksRejoin(s[size..], size);
      assert s == s[..size] + s[size..];
      assert Chunks(s, size)[1..] == Chunks(s[size..], size);
    }
  }

  lemma {:induction false} ChunksAreParts<T>(s: seq<T>, size: nat)
    requires size > 0
    ensures forall i :: 0 <= i < |Chunks(s, size)| ==> forall x :: x in Chunks(s, size)[i] ==> x in s
    decreases |s|
  {
    if |s| > size {
      ChunksAreParts(s[size..], size);
    }
  }
}
