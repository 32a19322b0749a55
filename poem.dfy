/**
 * The script's non-interface flow, from an already lowercased text and
 * the decimals of pi to the selected words, the read log and the tankas.
 */
module Poem {
  import opened Lib
  import Words
  import opened DigitStream
  import Selection
  import Stanzas

  /**
   * Extract the words, pick the stream and the starting cursor by mode,
   * run the selection loop and render the whole seven-word groups.
   */
  method GeneratePoem(lowered: string, w: char -> bool, pi: string, modo: Mode, tamBloque: nat, inicio: nat, salto: nat)
    returns (palabras: seq<string>, resultado: seq<string>, registros: seq<Selection.Record>, tankas: seq<string>)
    requires Words.CoversWordChars(w)
    requires AllDigits(pi)
    requires tamBloque >= 1
    requires modo == Espaciado ==> salto >= 1
    ensures palabras == Words.CleanText(lowered, w)
    ensures var stream := Transform(pi, modo, inicio, salto);
      var r := Selection.Run(Selection.Init(StartCursor(modo, inicio)), stream, tamBloque, palabras, modo);
      resultado == r.resultado && registros == r.registros
    ensures NoDuplicates(resultado) && (forall x :: x in resultado ==> x in palabras)
    ensures |resultado| == |registros| <= |palabras|
    ensures tankas == Stanzas.Tankas(Stanzas.Verses(resultado, Stanzas.TankaLength))
    ensures |tankas| == |resultado| / Stanzas.TankaLength
    ensures forall j :: 0 <= j < |tankas| ==>
      && (j + 1) * Stanzas.TankaLength <= |resultado|
      && tankas[j] == Stanzas.Tanka(resultado[j * Stanzas.TankaLength..(j + 1) * Stanzas.TankaLength], j + 1).value
  {
    palabras := Words.CleanText(lowered, w);
    var stream := Transform(pi, modo, inicio, salto);
    var start := StartCursor(modo, inicio);
    var i, usados;
    i, usados, resultado, registros := Selection.Select(stream, start, tamBloque, palabras, modo);
    Selection.SelectedWordsDistinct(stream, start, tamBloque, palabras, modo);
    Selection.SelectionIndices(stream, start, tamBloque, palabras, modo);
    tankas := Stanzas.Tankas(Stanzas.Verses(resultado, Stanzas.TankaLength));
    Stanzas.PoemTankas(resultado);
  }
}
