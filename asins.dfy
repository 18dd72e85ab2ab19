/**
 * The argument check at the top of `KeepaService.get_product_info`: an API
 * key must be set, and a comma-separated ASIN string is split into clean,
 * non-empty pieces.
 */
module Asins {
  import opened Wrappers
  import opened Text

  /** The `asins` argument: one comma-separated string, or an already split list. */
  datatype AsinInput = Joined(s: string) | Listed(xs: seq<string>)

  const NoKey: string := "Keepa API Key not provided."
  const NoAsins: string := "ASIN parameter is empty."

  /** Every ASIN is non-empty and neither starts nor ends with white space. */
  ghost predicate AllClean(xs: seq<string>) {
    forall k :: 0 <= k < |xs| ==> |xs[k]| > 0 && Trimmed(xs[k])
  }

  lemma AllCleanConcat(h: seq<string>, t: seq<string>)
    requires AllClean(h) && AllClean(t)
    ensures AllClean(h + t)
  {
    assert forall k :: |h| <= k < |h + t| ==> (h + t)[k] == t[k - |h|];
  }

  /** Each piece stripped, the empty ones dropped: `[s.strip() for s in pieces if s.strip()]`. */
  function Cleaned(pieces: seq<string>): (r: seq<string>)
    ensures |r| <= |pieces|
    ensures AllClean(r)
  {
    if |pieces| == 0 then []
    else
      var h := if |Strip(pieces[0])| > 0 then [Strip(pieces[0])] else [];
      var t := Cleaned(pieces[1..]);
      AllCleanConcat(h, t);
      h + t
  }

  /** The ASIN list of a comma-separated string. */
  function SplitAsins(s: string): seq<string> {
    Cleaned(Split(s, ','))
  }

  /** The ASIN list the request is made for, or the error dictionary's message. */
  function PrepareAsins(apiKey: string, asins: AsinInput): (r: Result<seq<string>>)
    ensures |apiKey| == 0 <==> r == Failure(NoKey)
    ensures r.Failure? ==> r.error == NoKey || r.error == NoAsins
    ensures r.Success? ==> |r.value| > 0
    ensures |apiKey| > 0 && asins.Joined? ==> (r.Success? <==> |SplitAsins(asins.s)| > 0)
    ensures |apiKey| > 0 && asins.Listed? ==> (r.Success? <==> |asins.xs| > 0) && (r.Success? ==> r.value == asins.xs)
  {
    if |apiKey| == 0 then Failure(NoKey)
    else
      var list := match asins case Joined(s) => SplitAsins(s) case Listed(xs) => xs;
      if |list| == 0 then Failure(NoAsins) else Success(list)
  }

  /** Pieces out of clean-up never hold a comma and never start or end with white space. */
  lemma {:induction false} CleanedPieces(pieces: seq<string>)
    requires forall k :: 0 <= k < |pieces| ==> ',' !in pieces[k]
    ensures forall k :: 0 <= k < |Cleaned(pieces)| ==> ',' !in Cleaned(pieces)[k]
  {
    if |pieces| > 0 {
      CleanedPieces(pieces[1..]);
    }
  }

  /** An ASIN of the string has no comma or surrounding white space and is not empty. */
  lemma SplitAsinsClean(s: string, k: int)
    requires 0 <= k < |SplitAsins(s)|
    ensures var a := SplitAsins(s)[k];
      |a| > 0 && ',' !in a && Trimmed(a)
  {
    CleanedPieces(Split(s, ','));
  }

  /** Clean pieces pass through clean-up unchanged. */
  lemma {:induction false} CleanedClean(xs: seq<string>)
    requires forall k :: 0 <= k < |xs| ==> |xs[k]| > 0 && Trimmed(xs[k])
    ensures Cleaned(xs) == xs
  {
    if |xs| > 0 {
      StripClean(xs[0]);
      CleanedClean(xs[1..]);
      assert xs == [xs[0]] + xs[1..];
    }
  }

  /**
   * Joining clean ASINs with commas and parsing the string gives the same
   * list back, so the string and the list forms of the argument agree.
   */
  lemma JoinedListRoundTrip(apiKey: string, xs: seq<string>)
    requires |xs| > 0
    requires forall k :: 0 <= k < |xs| ==>
      |xs[k]| > 0 && ',' !in xs[k] && Trimmed(xs[k])
    ensures SplitAsins(Join(xs, ',')) == xs
    ensures PrepareAsins(apiKey, Joined(Join(xs, ','))) == PrepareAsins(apiKey, Listed(xs))
  {
    var s := Join(xs, ',');
    SplitJoin(xs, ',');
    CleanedClean(xs);
    assert SplitAsins(s) == xs;
    if |apiKey| > 0 {
      assert PrepareAsins(apiKey, Joined(s)) == Success(xs);
    }
  }

  /** One piece: kept, stripped, exactly when it is not blank. */
  lemma CleanedOne(p: string)
    ensures Cleaned([p]) == if |Strip(p)| > 0 then [Strip(p)] else []
  {
    assert [p][1..] == [];
  }

  /** Clean-up keeps the order: it distributes over concatenation. */
  lemma {:induction false} CleanedAppend(xs: seq<string>, ys: seq<string>)
    ensures Cleaned(xs + ys) == Cleaned(xs) + Cleaned(ys)
  {
    if |xs| == 0 {
      assert xs + ys == ys;
    } else {
      var zs := xs + ys;
      assert zs[0] == xs[0] && zs[1..] == xs[1..] + ys;
      CleanedAppend(xs[1..], ys);
      var h := if |Strip(xs[0])| > 0 then [Strip(xs[0])] else [];
      calc {
        Cleaned(zs);
        h + Cleaned(xs[1..] + ys);
        h + (Cleaned(xs[1..]) + Cleaned(ys));
        (h + Cleaned(xs[1..])) + Cleaned(ys);
      }
    }
  }

  /** An ASIN comes out of clean-up exactly when it is the stripped text of some piece that is not blank. */
  lemma {:induction false} CleanedExactly(pieces: seq<string>, a: string)
    ensures a in Cleaned(pieces) <==> |a| > 0 && exists j :: 0 <= j < |pieces| && Strip(pieces[j]) == a
  {
    if |pieces| > 0 {
      var tail := pieces[1..];
      CleanedExactly(tail, a);
      assert forall j :: 0 <= j < |tail| ==> tail[j] == pieces[j + 1];
      if |a| > 0 && (exists j :: 0 <= j < |pieces| && Strip(pieces[j]) == a) {
        var j :| 0 <= j < |pieces| && Strip(pieces[j]) == a;
        if j > 0 {
          assert Strip(tail[j - 1]) == a;
        }
      }
    }
  }

  lemma SplitTwo(a: string, b: string)
    requires ',' !in a && ',' !in b
    ensures Split(a + [','] + b, ',') == [a, b]
  {
    SplitPrefix(a, b, ',');
    SplitNoSep(b, ',');
  }

  /** Clean-up of a list is the clean-up of its first piece followed by that of the rest. */
  lemma CleanedCons(p: string, ps: seq<string>)
    ensures Cleaned([p] + ps) == (if |Strip(p)| > 0 then [Strip(p)] else []) + Cleaned(ps)
  {
    assert ([p] + ps)[1..] == ps;
  }

  lemma CleanedTwo(a: string, b: string)
    requires |Strip(a)| > 0 && |Strip(b)| > 0
    ensures Cleaned([a, b]) == [Strip(a), Strip(b)]
  {
    var sa, sb := Strip(a), Strip(b);
    calc {
      Cleaned([a, b]);
    == { assert [a, b] == [a] + [b]; CleanedCons(a, [b]); }
      [sa] + Cleaned([b]);
    == { assert [b] == [b] + []; CleanedCons(b, []); }
      [sa] + ([sb] + Cleaned([]));
    ==
      [sa, sb];
    }
  }

  /** Blanks beside the comma go, and the pieces keep their order. */
  lemma SplitAsinsExample()
    ensures SplitAsins("A , B") == ["A", "B"]
  {
    assert "A , B" == "A " + [','] + " B";
    SplitTwo("A ", " B");
    StripExampleA();
    StripExampleB();
    CleanedTwo("A ", " B");
  }

  /** Commas and blanks alone make no ASIN. */
  lemma {:induction false} BlankPiecesVanish(pieces: seq<string>)
    requires forall k :: 0 <= k < |pieces| ==> forall i :: 0 <= i < |pieces[k]| ==> IsSpace(pieces[k][i])
    ensures Cleaned(pieces) == []
  {
    if |pieces| > 0 {
      BlankPiecesVanish(pieces[1..]);
    }
  }
}
