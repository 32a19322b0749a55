/**
 * Stanzas: the selected words cut into consecutive groups of seven
 * (`generar_versos`), each group rendered as a tanka block with a Roman
 * ordinal (`transformar_en_tanka`), and the list of rendered tankas.
 */
module Stanzas {
  import opened Lib
  import Roman

  datatype Option<T> = None | Some(value: T)

  /** Words per tanka, the default `longitud`. */
  const TankaLength: nat := 7

  /**
   * The comprehension of `generar_versos` from position start on: a slice
   * of L words at every L-th position, clamped at the end of p as Python
   * clamps slices, kept only when it is L words long.
   */
  function Chunks(p: seq<string>, L: nat, start: nat): seq<seq<string>>
    requires L >= 1
    decreases |p| - start
  {
    if start >= |p| then []
    else
      var c := p[start..if start + L <= |p| then start + L else |p|];
      (if |c| == L then [c] else []) + Chunks(p, L, start + L)
  }

  /** `generar_versos`: the groups of `longitud` consecutive words. */
  function Verses(palabras: seq<string>, longitud: nat): seq<seq<string>>
    requires longitud >= 1
  {
    Chunks(palabras, longitud, 0)
  }

  /** The whole L-word windows of p, left to right: the reference reading of the comprehension. */
  function Windows(p: seq<string>, L: nat): seq<seq<string>>
    requires L >= 1
    decreases |p|
  {
    if |p| < L then [] else [p[..L]] + Windows(p[L..], L)
  }

  /** The comprehension from `start` keeps exactly the whole windows of the words from `start` on. */
  lemma {:induction false} ChunksWindows(p: seq<string>, L: nat, start: nat)
    requires L >= 1 && start <= |p|
    ensures Chunks(p, L, start) == Windows(p[start..], L)
    decreases |p| - start
  {
    if start + L <= |p| {
      ChunksWindows(p, L, start + L);
      assert p[start..][..L] == p[start..start + L];
      assert p[start..][L..] == p[start + L..];
    }
  }

  /** There are `|p| // L` windows. */
  lemma {:induction false} WindowsCount(p: seq<string>, L: nat)
    requires L >= 1
    ensures |Windows(p, L)| == |p| / L
    decreases |p|
  {
    if |p| < L {
      Lib.DivUnique(|p|, L, 0, |p|);
    } else {
      WindowsCount(p[L..], L);
      Lib.DivStep(|p|, L);
    }
  }

  /** Window j is words j*L up to j*L + L. */
  lemma {:induction false} WindowsAt(p: seq<string>, L: nat, j: nat)
    requires L >= 1 && j < |Windows(p, L)|
    ensures j * L + L <= |p| && Windows(p, L)[j] == p[j * L..j * L + L]
    decreases j
  {
    if j > 0 {
      WindowsAt(p[L..], L, j - 1);
      Lib.MulSucc(j - 1, L);
      var lo := (j - 1) * L;
      Lib.SliceOfSuffix(p, L, lo, lo + L);
    }
  }

  /** The windows, concatenated again, are the first L * (number of windows) words. */
  lemma {:induction false} WindowsFlatten(p: seq<string>, L: nat)
    requires L >= 1
    ensures L * |Windows(p, L)| <= |p| && Flatten(Windows(p, L)) == p[..L * |Windows(p, L)|]
    decreases |p|
  {
    if |p| >= L {
      var ws := Windows(p, L);
      var k := |ws|;
      WindowsFlatten(p[L..], L);
      assert ws[1..] == Windows(p[L..], L);
      Lib.MulSucc(k - 1, L);
      assert L * k == L + L * (k - 1);
      assert p[..L] + p[L..][..L * (k - 1)] == p[..L * k];
    }
  }

  /** `generar_versos` gives `len(palabras) // longitud` groups. */
  lemma VersesCount(palabras: seq<string>, longitud: nat)
    requires longitud >= 1
    ensures |Verses(palabras, longitud)| == |palabras| / longitud
  {
    ChunksWindows(palabras, longitud, 0);
    assert palabras[0..] == palabras;
    WindowsCount(palabras, longitud);
  }

  /** Group j is words j*longitud up to (j+1)*longitud, so it has longitud words. */
  lemma VersesAt(palabras: seq<string>, longitud: nat, j: nat)
    requires longitud >= 1 && j < |Verses(palabras, longitud)|
    ensures (j + 1) * longitud <= |palabras|
    ensures Verses(palabras, longitud)[j] == palabras[j * longitud..(j + 1) * longitud]
    ensures |Verses(palabras, longitud)[j]| == longitud
  {
    ChunksWindows(palabras, longitud, 0);
    assert palabras[0..] == palabras;
    WindowsAt(palabras, longitud, j);
    Lib.MulSucc(j, longitud);
  }

  /** The groups, concatenated again, are the words up to the last whole group: only a trailing partial group is lost. */
  lemma VersesFlatten(palabras: seq<string>, longitud: nat)
    requires longitud >= 1
    ensures longitud * (|palabras| / longitud) <= |palabras|
    ensures Flatten(Verses(palabras, longitud)) == palabras[..longitud * (|palabras| / longitud)]
  {
    VersesCount(palabras, longitud);
    ChunksWindows(palabras, longitud, 0);
    assert palabras[0..] == palabras;
    WindowsFlatten(palabras, longitud);
  }

  /** The opening of a tanka block, up to its ordinal. */
  const Open: string := "<div class='tanka-block'><div class='symbol'>"

  /** `transformar_en_tanka(verso, i)`: the f-string, or None when the group is not seven words long. */
  function Tanka(verso: seq<string>, i: int): (r: Option<string>)
    ensures r.None? <==> |verso| != TankaLength
    ensures r.Some? ==> |r.value| > 0
  {
    if |verso| != 7 then None
    else
      Some(Open + Roman.RomanNumeral(i) + "</div>"
           + (verso[0] + "<br>" + (verso[1] + " " + verso[2]) + "<br>" + verso[3] + "<br>" + (verso[4] + " " + verso[5]) + "<br>" + verso[6])
           + "</div>")
  }

  /** Sum of a sequence of counts. */
  function Sum(xs: seq<nat>): nat
  {
    if xs == [] then 0 else xs[0] + Sum(xs[1..])
  }

  /** Cut ws into consecutive groups of the given sizes. */
  function Group(ws: seq<string>, shape: seq<nat>): (g: seq<seq<string>>)
    requires |ws| == Sum(shape)
    ensures |g| == |shape|
  {
    if shape == [] then [] else [ws[..shape[0]]] + Group(ws[shape[0]..], shape[1..])
  }

  /** The groups have the sizes of the shape and, concatenated, give back the words. */
  lemma {:induction false} GroupFlatten(ws: seq<string>, shape: seq<nat>)
    requires |ws| == Sum(shape)
    ensures forall k :: 0 <= k < |shape| ==> |Group(ws, shape)[k]| == shape[k]
    ensures Flatten(Group(ws, shape)) == ws
  {
    if shape != [] {
      var g := Group(ws, shape);
      GroupFlatten(ws[shape[0]..], shape[1..]);
      assert g[1..] == Group(ws[shape[0]..], shape[1..]);
      assert ws == ws[..shape[0]] + ws[shape[0]..];
    }
  }

  /** Words joined by single spaces (`" ".join`). */
  function Unwords(ws: seq<string>): string
  {
    JoinWith(ws, " ")
  }

  /** Parts joined by a separator (`sep.join(parts)`). */
  function JoinWith(parts: seq<string>, sep: string): string
  {
    if parts == [] then ""
    else if |parts| == 1 then parts[0]
    else JoinWith(parts[..|parts| - 1], sep) + sep + parts[|parts| - 1]
  }

  /** Words per line of a tanka: one, two, one, two, one. */
  const LineShape: seq<nat> := [1, 2, 1, 2, 1]

  /** The lines of a seven-word group. */
  function Lines(verso: seq<string>): (lines: seq<string>)
    requires |verso| == TankaLength
    ensures |lines| == |LineShape|
  {
    assert Sum(LineShape) == 7;
    var g := Group(verso, LineShape);
    seq(|g|, k requires 0 <= k < |g| => Unwords(g[k]))
  }

  /**
   * A tanka block is the opening, the ordinal, then the lines split by the
   * 1/2/1/2/1 shape (words within a line joined by a space, lines by
   * `<br>`), then the closing tag; no word is lost or repeated.
   */
  lemma TankaLayout(verso: seq<string>, i: int)
    requires |verso| == TankaLength
    ensures Sum(LineShape) == |verso| && Flatten(Group(verso, LineShape)) == verso
    ensures Tanka(verso, i) == Some(Open + Roman.RomanNumeral(i) + "</div>" + JoinWith(Lines(verso), "<br>") + "</div>")
  {
    LineGroups(verso);
    GroupFlatten(verso, LineShape);
    var ls := Lines(verso);
    LinesOf(verso);
    JoinFive(ls, "<br>");
  }

  /** The 1/2/1/2/1 groups of a seven-word group. */
  lemma LineGroups(verso: seq<string>)
    requires |verso| == TankaLength
    ensures Sum(LineShape) == 7
    ensures Group(verso, LineShape) == [verso[..1], verso[1..3], verso[3..4], verso[4..6], verso[6..]]
  {
    assert LineShape == [1] + [2, 1, 2, 1];
    var v := verso[1..];
    GroupTwoOneTwoOne(v);
    GroupHead(verso, 1, [2, 1, 2, 1]);
    assert v[..2] == verso[1..3] && v[2..3] == verso[3..4] && v[3..5] == verso[4..6] && v[5..] == verso[6..];
  }

  lemma GroupTwoOneTwoOne(v: seq<string>)
    requires |v| == 6
    ensures Sum([2, 1, 2, 1]) == 6
    ensures Group(v, [2, 1, 2, 1]) == [v[..2], v[2..3], v[3..5], v[5..]]
  {
    assert [2, 1, 2, 1] == [2] + [1, 2, 1];
    var t := v[2..];
    GroupOneTwoOne(t);
    GroupHead(v, 2, [1, 2, 1]);
    assert t[..1] == v[2..3] && t[1..3] == v[3..5] && t[3..] == v[5..];
  }

  lemma GroupOneTwoOne(t: seq<string>)
    requires |t| == 4
    ensures Sum([1, 2, 1]) == 4
    ensures Group(t, [1, 2, 1]) == [t[..1], t[1..3], t[3..]]
  {
    assert [1, 2, 1] == [1] + [2, 1];
    GroupHead(t, 1, [2, 1]);
    var u := t[1..];
    assert [2, 1] == [2] + [1];
    GroupHead(u, 2, [1]);
    assert [1] == [1] + [];
    GroupHead(u[2..], 1, []);
    assert u[..2] == t[1..3] && u[2..] == t[3..] && u[2..][..1] == t[3..];
  }

  /** The five lines of a seven-word group. */
  lemma LinesOf(verso: seq<string>)
    requires |verso| == TankaLength
    ensures Lines(verso) == [verso[0], verso[1] + " " + verso[2], verso[3], verso[4] + " " + verso[5], verso[6]]
  {
    LineGroups(verso);
    UnwordsTwo(verso[1..3]);
    UnwordsTwo(verso[4..6]);
    assert verso[..1] == [verso[0]] && verso[3..4] == [verso[3]] && verso[6..] == [verso[6]];
  }

  /** Group with a shape whose first size is n. */
  lemma GroupHead(ws: seq<string>, n: nat, rest: seq<nat>)
    requires |ws| == n + Sum(rest)
    ensures Sum([n] + rest) == |ws|
    ensures Group(ws, [n] + rest) == [ws[..n]] + Group(ws[n..], rest)
  {
    assert ([n] + rest)[1..] == rest;
  }

  /** One more part adds the separator and the part. */
  lemma JoinSnoc(parts: seq<string>, n: nat, sep: string)
    requires 2 <= n <= |parts|
    ensures JoinWith(parts[..n], sep) == JoinWith(parts[..n - 1], sep) + sep + parts[n - 1]
  {
    assert parts[..n][..n - 1] == parts[..n - 1];
  }

  lemma UnwordsTwo(ws: seq<string>)
    requires |ws| == 2
    ensures Unwords(ws) == ws[0] + " " + ws[1]
  {
    assert ws[..2] == ws;
    JoinSnoc(ws, 2, " ");
    assert JoinWith(ws[..1], " ") == ws[0];
  }

  lemma JoinFive(ls: seq<string>, sep: string)
    requires |ls| == 5
    ensures JoinWith(ls, sep) == ls[0] + sep + ls[1] + sep + ls[2] + sep + ls[3] + sep + ls[4]
  {
    assert ls[..5] == ls;
    JoinSnoc(ls, 5, sep);
    JoinSnoc(ls, 4, sep);
    JoinSnoc(ls, 3, sep);
    JoinSnoc(ls, 2, sep);
    assert JoinWith(ls[..1], sep) == ls[0];
  }

  /**
   * The test of line 125 on one group: the group's rendering is kept when
   * it is truthy (a Some with a non-empty text). That is exactly when the
   * group has seven words.
   */
  function Kept(verso: seq<string>, ordinal: int): (r: seq<string>)
    ensures r == if |verso| == TankaLength then [Tanka(verso, ordinal).value] else []
  {
    var t := Tanka(verso, ordinal);
    if t.Some? && t.value != "" then [t.value] else []
  }

  /** Line 125 from enumeration index `offset` on: each group in turn, with ordinal index + 1, through the test. */
  function TankasFrom(versos: seq<seq<string>>, offset: nat): seq<string>
  {
    if versos == [] then [] else Kept(versos[0], offset + 1) + TankasFrom(versos[1..], offset + 1)
  }

  /** `tankas`. */
  function Tankas(versos: seq<seq<string>>): seq<string>
  {
    TankasFrom(versos, 0)
  }

  /** When every group has seven words, tanka j is group j rendered with ordinal offset + j + 1. */
  lemma {:induction false} TankasFromAll(versos: seq<seq<string>>, offset: nat)
    requires forall j :: 0 <= j < |versos| ==> |versos[j]| == TankaLength
    ensures |TankasFrom(versos, offset)| == |versos|
    ensures forall j :: 0 <= j < |versos| ==>
      Tanka(versos[j], offset + j + 1).Some? && TankasFrom(versos, offset)[j] == Tanka(versos[j], offset + j + 1).value
  {
    if versos != [] {
      var ts := TankasFrom(versos, offset);
      var rest := TankasFrom(versos[1..], offset + 1);
      TankasFromAll(versos[1..], offset + 1);
      assert ts == [Tanka(versos[0], offset + 1).value] + rest;
      forall j | 0 < j < |versos|
        ensures ts[j] == Tanka(versos[j], offset + j + 1).value
      {
        assert versos[1..][j - 1] == versos[j];
      }
    }
  }

  /** The filter works group by group: splitting the groups splits the tankas, and the second part is numbered from its place in the whole. */
  lemma {:induction false} TankasFromAppend(a: seq<seq<string>>, b: seq<seq<string>>, offset: nat)
    ensures TankasFrom(a + b, offset) == TankasFrom(a, offset) + TankasFrom(b, offset + |a|)
  {
    if a != [] {
      assert (a + b)[0] == a[0] && (a + b)[1..] == a[1..] + b;
      TankasFromAppend(a[1..], b, offset + 1);
      var h := Kept(a[0], offset + 1);
      AppendAssoc(h, TankasFrom(a[1..], offset + 1), TankasFrom(b, offset + |a|));
    } else {
      assert a + b == b;
    }
  }

  /**
   * Group j contributes its own tanka, numbered offset + j + 1, or nothing
   * when it does not have seven words; the groups before and after it are
   * numbered by their own positions either way.
   */
  lemma TankasFromAt(versos: seq<seq<string>>, offset: nat, j: nat)
    requires j < |versos|
    ensures TankasFrom(versos, offset) ==
      TankasFrom(versos[..j], offset) + Kept(versos[j], offset + j + 1) + TankasFrom(versos[j + 1..], offset + j + 1)
  {
    var pre, mid, post := versos[..j], [versos[j]], versos[j + 1..];
    assert versos == pre + (mid + post) && |pre| == j && |mid| == 1;
    var tp, tm, tq := TankasFrom(pre, offset), Kept(versos[j], offset + j + 1), TankasFrom(post, offset + j + 1);
    assert mid[1..] == [];
    assert TankasFrom(mid, offset + j) == tm by {
      assert TankasFrom(mid, offset + j) == tm + TankasFrom([], offset + j + 1);
      assert tm + [] == tm;
    }
    assert TankasFrom(mid + post, offset + j) == tm + tq by {
      TankasFromAppend(mid, post, offset + j);
    }
    assert TankasFrom(versos, offset) == tp + (tm + tq) by {
      TankasFromAppend(pre, mid + post, offset);
    }
    AppendAssoc(tp, tm, tq);
  }

  /** A group of the wrong length is skipped, and every later group keeps the ordinal of its own position. */
  lemma SkippedGroupKeepsNumbering(versos: seq<seq<string>>, j: nat)
    requires j < |versos| && |versos[j]| != TankaLength
    ensures Tankas(versos) == Tankas(versos[..j]) + TankasFrom(versos[j + 1..], j + 1)
  {
    TankasFromAt(versos, 0, j);
    var before := TankasFrom(versos[..j], 0);
    assert Kept(versos[j], j + 1) == [] && before + [] == before;
  }

  /**
   * The tankas of a poem: one per whole group of seven selected words,
   * tanka j being words 7j .. 7j + 6 with ordinal j + 1, as a Roman numeral.
   */
  lemma PoemTankas(resultado: seq<string>)
    ensures |Tankas(Verses(resultado, TankaLength))| == |resultado| / TankaLength
    ensures forall j :: 0 <= j < |resultado| / TankaLength ==>
      && (j + 1) * TankaLength <= |resultado|
      && Tankas(Verses(resultado, TankaLength))[j]
         == Tanka(resultado[j * TankaLength..(j + 1) * TankaLength], j + 1).value
  {
    var vs := Verses(resultado, TankaLength);
    VersesCount(resultado, TankaLength);
    forall j | 0 <= j < |vs| ensures |vs[j]| == TankaLength {
      VersesAt(resultado, TankaLength, j);
    }
    TankasFromAll(vs, 0);
    forall j | 0 <= j < |vs|
      ensures (j + 1) * TankaLength <= |resultado| && vs[j] == resultado[j * TankaLength..(j + 1) * TankaLength]
    {
      VersesAt(resultado, TankaLength, j);
    }
  }

  /** Fourteen selected words make two tankas, numbered I and II, from words 0 .. 6 and 7 .. 13. */
  lemma FourteenWords(resultado: seq<string>)
    requires |resultado| == 14
    ensures var ts := Tankas(Verses(resultado, TankaLength));
      && |ts| == 2
      && ts[0] == Open + "I" + "</div>" + JoinWith(Lines(resultado[..7]), "<br>") + "</div>"
      && ts[1] == Open + "II" + "</div>" + JoinWith(Lines(resultado[7..]), "<br>") + "</div>"
  {
    PoemTankas(resultado);
    Roman.UnitExamples();
    TankaLayout(resultado[..7], 1);
    TankaLayout(resultado[7..], 2);
    assert resultado[0 * TankaLength..(0 + 1) * TankaLength] == resultado[..7];
    assert resultado[1 * TankaLength..(1 + 1) * TankaLength] == resultado[7..];
  }
}
