/**
 * The digit stream that the selector scans, by reading mode: the decimals
 * of pi reversed (Inverso), sampled from `inicio` every `salto` digits
 * (Espaciado), or unchanged (Directo, Modular), together with the cursor
 * the scan starts from.
 */
module DigitStream {
  import opened Lib

  /** The four reading modes offered by the selector box. */
  datatype Mode = Directo | Inverso | Espaciado | Modular

  predicate AllDigits(s: string)
  {
    forall k :: 0 <= k < |s| ==> IsDigit(s[k])
  }

  /** The Inverso stream: the decimals in reverse order. */
  function Reversed(s: string): (r: string)
    ensures |r| == |s|
    ensures forall k :: 0 <= k < |s| ==> r[k] == s[|s| - 1 - k]
  {
    if s == [] then [] else Reversed(s[1..]) + [s[0]]
  }

  /** The Espaciado stream: every salto-th digit of s, starting with digit inicio, in order. */
  function Spaced(s: string, inicio: nat, salto: nat): string
    requires salto >= 1
    decreases |s| - inicio
  {
    if inicio >= |s| then [] else [s[inicio]] + Spaced(s, inicio + salto, salto)
  }

  /** The sampled stream has ceil((|s| - inicio) / salto) digits, or none when inicio is past the end. */
  lemma {:induction false} SpacedLength(s: string, inicio: nat, salto: nat)
    requires salto >= 1
    ensures |Spaced(s, inicio, salto)| == if inicio < |s| then (|s| - inicio + salto - 1) / salto else 0
    decreases |s| - inicio
  {
    if inicio < |s| {
      SpacedLength(s, inicio + salto, salto);
      var x := |s| - inicio + salto - 1;
      if inicio + salto < |s| {
        DivStep(x, salto);
      } else {
        DivUnique(x, salto, 1, x - salto);
      }
    }
  }

  /** Digit j of the sampled stream is digit inicio + j * salto of s. */
  lemma {:induction false} SpacedAt(s: string, inicio: nat, salto: nat, j: nat)
    requires salto >= 1
    requires j < |Spaced(s, inicio, salto)|
    ensures inicio + j * salto < |s| && Spaced(s, inicio, salto)[j] == s[inicio + j * salto]
    decreases |s| - inicio
  {
    if j > 0 {
      SpacedAt(s, inicio + salto, salto, j - 1);
      ShiftStride(j, salto);
    }
  }

  lemma ShiftStride(j: int, salto: int)
    ensures salto + (j - 1) * salto == j * salto
  {
  }

  /** Length, indices and digit-ness of the sampled stream together. */
  lemma SpacedFacts(s: string, inicio: nat, salto: nat)
    requires salto >= 1
    ensures |Spaced(s, inicio, salto)| == if inicio < |s| then (|s| - inicio + salto - 1) / salto else 0
    ensures forall j :: 0 <= j < |Spaced(s, inicio, salto)| ==>
      inicio + j * salto < |s| && Spaced(s, inicio, salto)[j] == s[inicio + j * salto]
    ensures AllDigits(s) ==> AllDigits(Spaced(s, inicio, salto))
  {
    SpacedLength(s, inicio, salto);
    forall j | 0 <= j < |Spaced(s, inicio, salto)|
      ensures inicio + j * salto < |s| && Spaced(s, inicio, salto)[j] == s[inicio + j * salto]
    {
      SpacedAt(s, inicio, salto, j);
    }
  }

  /** The stream scanned in the given mode (`salto` is read only by Espaciado). */
  function Transform(pi: string, mode: Mode, inicio: nat, salto: nat): (r: string)
    requires mode == Espaciado ==> salto >= 1
    ensures mode == Inverso ==> |r| == |pi| && forall k :: 0 <= k < |pi| ==> r[k] == pi[|pi| - 1 - k]
    ensures mode == Espaciado ==>
      && |r| == (if inicio < |pi| then (|pi| - inicio + salto - 1) / salto else 0)
      && forall j :: 0 <= j < |r| ==> inicio + j * salto < |pi| && r[j] == pi[inicio + j * salto]
    ensures mode == Directo || mode == Modular ==> r == pi
    ensures AllDigits(pi) ==> AllDigits(r)
  {
    match mode
    case Inverso => Reversed(pi)
    case Espaciado =>
      SpacedFacts(pi, inicio, salto);
      Spaced(pi, inicio, salto)
    case _ => pi
  }

  /** Where the cursor starts: the offset is already taken in Espaciado. */
  function StartCursor(mode: Mode, inicio: nat): (i: nat)
    ensures i == 0 || i == inicio
    ensures i == 0 <==> mode == Espaciado || inicio == 0
  {
    if mode == Espaciado then 0 else inicio
  }
}
