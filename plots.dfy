/** The colour rule of the chromosome-wide scatter plots: green for an X
    chromosome, blue for a Y, red for the rest, decided on the lower-cased
    name (so any `x` beats any `y`: "chrXY" is green). */
module Plots {
  import opened Text

  datatype Colour = Green | Blue | Red

  /** `if "x" in chrom.lower() ... elif "y" in chrom.lower() ... else`. */
  function PlotColour(chrom: string): (c: Colour)
    ensures c == Green <==> 'x' in chrom || 'X' in chrom
    ensures c == Blue <==> 'x' !in chrom && 'X' !in chrom && ('y' in chrom || 'Y' in chrom)
    ensures c == Red <==> 'x' !in chrom && 'X' !in chrom && 'y' !in chrom && 'Y' !in chrom
  {
    LowerContains(chrom, 'x', 'X');
    LowerContains(chrom, 'y', 'Y');
    if 'x' in Lower(chrom) then Green
    else if 'y' in Lower(chrom) then Blue
    else Red
  }

  /** The usual names: "chrX" is plotted green, "chrY" blue, "chr19" red. */
  lemma UsualChromosomeColours()
    ensures PlotColour("chrX") == Green
    ensures PlotColour("chrY") == Blue
    ensures PlotColour("chr19") == Red
  {
    assert "chrX"[3] == 'X';
    assert "chrY"[3] == 'Y';
    assert forall i :: 0 <= i < 5 ==> "chr19"[i] in {'c', 'h', 'r', '1', '9'};
  }
}
