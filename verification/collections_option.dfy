/** The `collections` option of the `/backup` command: an optional
    comma-separated list of collection names, turned into either "no filter"
    (back up every collection) or the ordered list of names to back up.

    `None` means the option was not given (`getString` returned `null`).
    The result keeps "no filter" (`None`) apart from "an empty filter"
    (`Some([])`). */
module CollectionsOption {
  import opened Wrappers
  import opened JsString

  /** The character the option value is split on. */
  const Separator: char := ','

  /** A name the parser can produce: non-empty, without whitespace at either
      end, and without a comma. */
  predicate IsCollectionName(n: string, ws: char -> bool) {
    && |n| > 0
    && Trimmed(n, ws)
    && Separator !in n
  }

  /** Whitespace other than the separator, as may follow a comma in a
      hand-typed list. */
  predicate IsPadding(p: string, ws: char -> bool) {
    forall k :: 0 <= k < |p| ==> ws(p[k]) && p[k] != Separator
  }

  /** The names in an option value: split on commas, each piece trimmed,
      the empty ones dropped. */
  function Names(s: string, ws: char -> bool): (r: seq<string>)
    ensures forall i :: 0 <= i < |r| ==> IsCollectionName(r[i], ws)
    ensures |r| <= Count(s, Separator) + 1
  {
    var pieces := Split(s, Separator);
    SplitCount(s, Separator);
    KeptPiecesAreNames(pieces, ws);
    DropEmpty(TrimAll(pieces, ws))
  }

  /** Every piece that survives the trim and the filter is a name: the
      filter keeps only trims of pieces, and those are non-empty. */
  lemma KeptPiecesAreNames(pieces: seq<string>, ws: char -> bool)
    requires forall i :: 0 <= i < |pieces| ==> Separator !in pieces[i]
    ensures forall i :: 0 <= i < |DropEmpty(TrimAll(pieces, ws))| ==>
              IsCollectionName(DropEmpty(TrimAll(pieces, ws))[i], ws)
  {
    var trimmed := TrimAll(pieces, ws);
    var kept := DropEmpty(trimmed);
    forall i | 0 <= i < |kept| ensures IsCollectionName(kept[i], ws) {
      var x := kept[i];
      assert x in kept;
      var j :| 0 <= j < |trimmed| && trimmed[j] == x;
      TrimKeepsOut(pieces[j], Separator, ws);
      var k: nat :| TrimAt(x, pieces[j], k, ws);
    }
  }

  /** The parse at the head of the command: a missing or empty option means
      "no filter"; any other value yields its list of names, possibly empty. */
  function ParseCollections(param: Option<string>, ws: char -> bool): (r: Option<seq<string>>)
    ensures r.None? <==> param.None? || param.value == ""
    ensures r.Some? ==> forall i :: 0 <= i < |r.value| ==> IsCollectionName(r.value[i], ws)
    ensures r.Some? ==> |r.value| <= Count(param.value, Separator) + 1
  {
    match param
    case None => None
    // An empty string is falsy, so it takes the same branch as a missing one.
    case Some(s) => if s == "" then None else Some(Names(s, ws))
  }

  /* ------------------------------------------------------------------ */
  /* An algebraic description of the parse                              */
  /* ------------------------------------------------------------------ */

  /** A value without a comma is one segment: its trim, unless that is empty. */
  lemma NamesOfSegment(s: string, ws: char -> bool)
    requires Separator !in s
    ensures Names(s, ws) == if Trim(s, ws) == "" then [] else [Trim(s, ws)]
  {
    SplitNoSeparator(s, Separator);
  }

  /** A comma splits the list into the names before it followed by the
      names after it. */
  lemma NamesConcat(a: string, b: string, ws: char -> bool)
    ensures Names(a + [Separator] + b, ws) == Names(a, ws) + Names(b, ws)
  {
    var pa := Split(a, Separator);
    var pb := Split(b, Separator);
    SplitConcat(a, b, Separator);
    TrimAllConcat(pa, pb, ws);
    DropEmptyConcat(TrimAll(pa, ws), TrimAll(pb, ws));
  }

  /** The same two facts stated on the parse itself: a segment gives at most
      one name, and a comma concatenates the names on its two sides, in
      input order and with repetitions. */
  lemma ParseSegments(a: string, b: string, ws: char -> bool)
    ensures Separator !in a && a != "" ==>
      ParseCollections(Some(a), ws) == Some(if Trim(a, ws) == "" then [] else [Trim(a, ws)])
    ensures ParseCollections(Some(a + [Separator] + b), ws)
         == Some(ParseCollections(Some(a), ws).GetOr([]) + ParseCollections(Some(b), ws).GetOr([]))
  {
    if Separator !in a {
      NamesOfSegment(a, ws);
    }
    var s := a + [Separator] + b;
    assert s[|a|] == Separator;
    assert ParseCollections(Some(s), ws) == Some(Names(s, ws));
    NamesConcat(a, b, ws);
    ParseOrEmpty(a, ws);
    ParseOrEmpty(b, ws);
  }

  /** Read as a list, a missing filter and an empty value both give no
      names. */
  lemma ParseOrEmpty(s: string, ws: char -> bool)
    ensures ParseCollections(Some(s), ws).GetOr([]) == Names(s, ws)
  {
    if s == "" {
      NamesOfSegment("", ws);
      TrimEmptyIff("", ws);
    }
  }

  /* ------------------------------------------------------------------ */
  /* Only separators and whitespace                                     */
  /* ------------------------------------------------------------------ */

  /** Every character is a comma or whitespace. */
  predicate OnlySeparators(s: string, ws: char -> bool) {
    forall k :: 0 <= k < |s| ==> s[k] == Separator || ws(s[k])
  }

  lemma OnlySeparatorsConcat(a: string, b: string, ws: char -> bool)
    ensures OnlySeparators(a + [Separator] + b, ws) <==> OnlySeparators(a, ws) && OnlySeparators(b, ws)
  {
    var s := a + [Separator] + b;
    if OnlySeparators(a, ws) && OnlySeparators(b, ws) {
      forall k | 0 <= k < |s| ensures s[k] == Separator || ws(s[k]) {
        if k < |a| {
          assert s[k] == a[k];
        } else if k > |a| {
          assert s[k] == b[k - |a| - 1];
        }
      }
    }
    if OnlySeparators(s, ws) {
      forall k | 0 <= k < |a| ensures a[k] == Separator || ws(a[k]) {
        assert s[k] == a[k];
      }
      forall k | 0 <= k < |b| ensures b[k] == Separator || ws(b[k]) {
        assert s[|a| + 1 + k] == b[k];
      }
    }
  }

  lemma {:induction false} NamesEmptyIff(s: string, ws: char -> bool)
    ensures Names(s, ws) == [] <==> OnlySeparators(s, ws)
    decreases |s|
  {
    if Separator in s {
      var p :| 0 <= p < |s| && s[p] == Separator;
      var a, b := s[..p], s[p + 1..];
      assert s == a + [Separator] + b;
      NamesConcat(a, b, ws);
      NamesEmptyIff(a, ws);
      NamesEmptyIff(b, ws);
      OnlySeparatorsConcat(a, b, ws);
    } else {
      NamesOfSegment(s, ws);
      TrimEmptyIff(s, ws);
    }
  }

  /** A non-empty value gives the empty list, and not "no filter", exactly
      when it holds nothing but commas and whitespace. */
  lemma ParseOnlySeparators(s: string, ws: char -> bool)
    requires s != ""
    ensures ParseCollections(Some(s), ws) == Some([]) <==> OnlySeparators(s, ws)
  {
    NamesEmptyIff(s, ws);
  }

  /* ------------------------------------------------------------------ */
  /* Round trip                                                         */
  /* ------------------------------------------------------------------ */

  /** A single name after padding is read back as that name. */
  lemma NamesOfPaddedName(q: string, n: string, ws: char -> bool)
    requires IsPadding(q, ws) && IsCollectionName(n, ws)
    ensures Names(q + n, ws) == [n]
  {
    var head := q + n;
    forall k | 0 <= k < |head| ensures head[k] != Separator {
      if k < |q| {
        assert head[k] == q[k];
      } else {
        assert head[k] == n[k - |q|];
      }
    }
    NamesOfSegment(head, ws);
    assert head + "" == head;
    TrimPadded(q, n, "", ws);
  }

  lemma JoinPaddedUnfold(names: seq<string>, p: string, q: string)
    requires |names| > 1
    ensures q + Join(names, [Separator] + p)
         == (q + names[0]) + [Separator] + (p + Join(names[1..], [Separator] + p))
  {
    var sep := [Separator] + p;
    var rest := Join(names[1..], sep);
    assert Join(names, sep) == names[0] + sep + rest;
    assert q + (names[0] + sep + rest) == (q + names[0]) + [Separator] + (p + rest);
  }

  lemma {:induction false} NamesOfJoin(names: seq<string>, p: string, q: string, ws: char -> bool)
    requires |names| > 0
    requires forall i :: 0 <= i < |names| ==> IsCollectionName(names[i], ws)
    requires IsPadding(p, ws) && IsPadding(q, ws)
    ensures Names(q + Join(names, [Separator] + p), ws) == names
    decreases |names|
  {
    var a := q + names[0];
    assert Names(a, ws) == [names[0]] by {
      NamesOfPaddedName(q, names[0], ws);
    }
    if |names| > 1 {
      var b := p + Join(names[1..], [Separator] + p);
      assert Names(b, ws) == names[1..] by {
        NamesOfJoin(names[1..], p, p, ws);
      }
      assert q + Join(names, [Separator] + p) == a + [Separator] + b by {
        JoinPaddedUnfold(names, p, q);
      }
      NamesConcat(a, b, ws);
      assert [names[0]] + names[1..] == names;
    }
  }

  /** A list of names joined with a comma and optional padding parses back
      to the same list: nothing is reordered, merged or dropped. */
  lemma ParseJoinRoundTrip(names: seq<string>, p: string, ws: char -> bool)
    requires |names| > 0
    requires forall i :: 0 <= i < |names| ==> IsCollectionName(names[i], ws)
    requires IsPadding(p, ws)
    ensures ParseCollections(Some(Join(names, [Separator] + p)), ws) == Some(names)
  {
    var s := Join(names, [Separator] + p);
    assert |names| == 1 || s == names[0] + ([Separator] + p) + Join(names[1..], [Separator] + p);
    assert s[0] == names[0][0];
    NamesOfJoin(names, p, "", ws);
    assert "" + s == s;
  }

  /** Parsing is idempotent on lists: re-joining a parsed non-empty list and
      parsing again gives the same list. */
  lemma ParseRenormalises(s: string, ws: char -> bool)
    requires ParseCollections(Some(s), ws).Some?
    requires ParseCollections(Some(s), ws).value != []
    ensures ParseCollections(Some(Join(ParseCollections(Some(s), ws).value, [Separator])), ws)
         == ParseCollections(Some(s), ws)
  {
    ParseJoinRoundTrip(ParseCollections(Some(s), ws).value, "", ws);
    assert [Separator] + "" == [Separator];
  }

  /** A repeated name is kept as many times as it is written. */
  lemma ParseKeepsDuplicates(n: string, ws: char -> bool)
    requires IsCollectionName(n, ws)
    ensures ParseCollections(Some(n + [Separator] + n), ws) == Some([n, n])
  {
    assert Join([n, n], [Separator]) == n + [Separator] + n;
    assert IsPadding("", ws);
    ParseJoinRoundTrip([n, n], "", ws);
    assert [Separator] + "" == [Separator];
  }
}
