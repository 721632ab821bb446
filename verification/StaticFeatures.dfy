/** The eight feature types that do not read blocks: they write their slices when they start. */
module StaticFeatureTypes {
  import opened Bytes
  import opened OutputSlices
  import opened Core
  import EntropyBins
  import ImportsInfos
  import ExportsInfos
  import RichHeaders
  import SectionInfos
  import FeatureHashers
  import CsrRows

  /** Two of them keep hashers from one file to the next. */
  class StaticFeatures {
    const importsInfo: ImportsInfos.ImportsInfo
    const exportsInfo: ExportsInfos.ExportsInfo

    constructor ()
      ensures Distinct() && fresh(Repr())
    {
      importsInfo := new ImportsInfos.ImportsInfo();
      exportsInfo := new ExportsInfos.ExportsInfo();
    }

    ghost function Repr(): set<object> {
      {importsInfo.librariesFH, importsInfo.functionsFH, exportsInfo.functionsFH}
    }

    ghost predicate Distinct() {
      importsInfo.librariesFH != importsInfo.functionsFH
    }

    /** Whatever the hashers and the slices held. */
    method Start(shannon: EntropyBins.Entropy, parser: Parser, file: seq<Byte>, output: array<real>)
      requires ValidParser(parser) && output.Length == NUM_FEATURES && Distinct()
      modifies output, Repr()
      ensures HoldsAt(output[..], 696, StaticRows(shannon, parser, file, |DIMS|))
      ensures SameOutside(old(output[..]), output[..], 696, 1872)
    {
      OffsetValues();
      ghost var before := output[..];
      var vec := 696;
      for k := FIRST_STATIC to |DIMS|
        invariant vec == Offset(k) && 696 <= vec <= NUM_FEATURES
        invariant HoldsAt(output[..], 696, StaticRows(shannon, parser, file, k))
        invariant SameOutside(before, output[..], 696, 1872)
      {
        OffsetsGrow(k + 1, |DIMS|);
        ghost var middle := output[..];
        StartFeature(shannon, parser, file, output, k, vec);
        StaticStep(shannon, parser, file, k, before, middle, output[..]);
        vec := vec + DIMS[k];
      }
    }

    /** One of them fills its slice and touches no other cell. */
    method StartFeature(shannon: EntropyBins.Entropy, parser: Parser, file: seq<Byte>, output: array<real>,
                        k: nat, vec: nat)
      requires ValidParser(parser) && Distinct()
      requires FIRST_STATIC <= k < |DIMS| && vec + DIMS[k] <= output.Length
      modifies output, Repr()
      ensures HoldsAt(output[..], vec, StaticRow(shannon, parser, file, k))
      ensures SameOutside(old(output[..]), output[..], vec, DIMS[k])
    {
      if k == SECTIONS {
        SectionInfos.Start(shannon, output, vec, parser.sections(file), |file|);
      } else if k == IMPORTS {
        importsInfo.Start(output, vec, parser.imports(file));
      } else if k == EXPORTS {
        exportsInfo.Start(output, vec, parser.exports(file));
      } else if k == RICH_HEADER {
        RichHeaders.Start(output, vec, parser.richHeader(file));
      } else if k == WARNINGS {
        ghost var before := output[..];
        FeatureHashers.ClearCells(output, vec, 88);
        ReplacesHolds(before, output[..], vec, CsrRows.Zeros(88));
      } else {
        WriteSlice(output, vec, parser.fields(k, file));
      }
    }
  }

  /** One more slice behind those written before. */
  lemma StaticStep(shannon: EntropyBins.Entropy, p: Parser, file: seq<Byte>, k: nat,
                   before: seq<real>, middle: seq<real>, after: seq<real>)
    requires ValidParser(p) && FIRST_STATIC <= k < |DIMS|
    requires HoldsAt(middle, 696, StaticRows(shannon, p, file, k)) && SameOutside(before, middle, 696, 1872)
    requires HoldsAt(after, Offset(k), StaticRow(shannon, p, file, k)) && SameOutside(middle, after, Offset(k), DIMS[k])
    ensures HoldsAt(after, 696, StaticRows(shannon, p, file, k + 1)) && SameOutside(before, after, 696, 1872)
  {
    OffsetValues();
    OffsetsGrow(FIRST_STATIC, k);
    OffsetsGrow(k + 1, |DIMS|);
    StaticLength(shannon, p, file, k);
    HoldsKept(middle, after, 696, StaticRows(shannon, p, file, k), Offset(k), DIMS[k]);
    HoldsJoin(after, 696, StaticRows(shannon, p, file, k), StaticRow(shannon, p, file, k));
    SameOutsideWiden(middle, after, Offset(k), DIMS[k], 696, 1872);
    SameOutsideChain(before, middle, after, 696, 1872);
  }

  method WriteSlice(output: array<real>, at: nat, row: seq<real>)
    requires at + |row| <= output.Length
    modifies output
    ensures HoldsAt(output[..], at, row) && SameOutside(old(output[..]), output[..], at, |row|)
  {
    for i := 0 to |row|
      invariant forall k :: 0 <= k < output.Length ==>
        output[k] == if at <= k < at + i then row[k - at] else old(output[k])
    {
      output[at + i] := row[i];
    }
  }
}
