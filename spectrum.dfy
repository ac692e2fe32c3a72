/**
 * `VALDToSpectrum` (VALDLinelist.py:388-455) with energies in cm^-1: each VALD line with at
 * least 13 comma-separated fields becomes one fixed-width SPECTRUM record holding the
 * wavelength, the species code, the lower and upper energies, log gf and three constant
 * columns; a line whose first field is exactly "*" ends the conversion.
 */
module ValdSpectrum {
  import opened Wrappers
  import opened Text

  // ---------------------------------------------------------------------------
  // str.split(",")

  /** `s` holds no `c`. */
  predicate Free(s: string, c: char)
  {
    forall j :: 0 <= j < |s| ==> s[j] != c
  }

  /** Python's `s.split(sep)` for a one-character separator: the texts between separators. */
  function SplitOn(s: string, sep: char): (r: seq<string>)
    ensures |r| > 0
    ensures forall k :: 0 <= k < |r| ==> Free(r[k], sep)
    decreases |s|
  {
    match Find(s, sep)
    case None => [s]
    case Some(i) => [s[..i]] + SplitOn(s[i + 1..], sep)
  }

  /** Python's `sep.join(fields)`. */
  function JoinWith(fields: seq<string>, sep: char): (r: string)
    requires |fields| > 0
  {
    if |fields| == 1 then fields[0] else fields[0] + [sep] + JoinWith(fields[1..], sep)
  }

  /** Joining the fields of a split gives back the line. */
  lemma {:induction false} JoinOfSplit(s: string, sep: char)
    ensures JoinWith(SplitOn(s, sep), sep) == s
    decreases |s|
  {
    match Find(s, sep)
    case None =>
    case Some(i) =>
      JoinOfSplit(s[i + 1..], sep);
      var r := SplitOn(s, sep);
      assert r[1..] == SplitOn(s[i + 1..], sep);
      assert s == s[..i] + [sep] + s[i + 1..];
  }

  lemma {:induction false} FindAfterFree(f: string, rest: string, sep: char)
    requires Free(f, sep)
    ensures Find(f + [sep] + rest, sep) == Some(|f|)
  {
    if f != [] {
      assert (f + [sep] + rest)[1..] == f[1..] + [sep] + rest;
      FindAfterFree(f[1..], rest, sep);
    }
  }

  /** Splitting a separator-free text, a separator and the rest gives the text, then the rest's fields. */
  lemma SplitOnCons(f: string, rest: string, sep: char)
    requires Free(f, sep)
    ensures SplitOn(f + [sep] + rest, sep) == [f] + SplitOn(rest, sep)
  {
    var s := f + [sep] + rest;
    FindAfterFree(f, rest, sep);
    assert s[..|f|] == f && s[|f| + 1..] == rest;
  }

  /** Splitting a join of separator-free fields gives back the fields. */
  lemma {:induction false} SplitOfJoin(fields: seq<string>, sep: char)
    requires |fields| > 0 && forall k :: 0 <= k < |fields| ==> Free(fields[k], sep)
    ensures SplitOn(JoinWith(fields, sep), sep) == fields
    decreases |fields|
  {
    if |fields| == 1 {
      assert Find(fields[0], sep).None?;
    } else {
      assert Free(fields[0], sep);
      SplitOnCons(fields[0], JoinWith(fields[1..], sep), sep);
      assert forall k :: 0 <= k < |fields| - 1 ==> fields[1..][k] == fields[k + 1];
      SplitOfJoin(fields[1..], sep);
      assert [fields[0]] + fields[1..] == fields;
    }
  }

  // ---------------------------------------------------------------------------
  // The species code (lines 402-431)

  /**
   * A Python dict literal as the list of its entries in the order written; `Get` is
   * `dict.get`, the value of the entry with that key or `None`.
   */
  function Get(table: seq<(string, string)>, key: string): (r: Option<string>)
    ensures r.Some? ==> exists i :: 0 <= i < |table| && table[i] == (key, r.value)
    ensures r.None? ==> forall i :: 0 <= i < |table| ==> table[i].0 != key
  {
    if table == [] then None
    else if table[0].0 == key then Some(table[0].1)
    else Get(table[1..], key)
  }

  /** `elem_dict`: an element symbol to its atomic number. */
  const ElementTable: seq<(string, string)> := [
    ("H", "1"), ("He", "2"), ("Li", "3"), ("Be", "4"), ("B", "5"), ("C", "6"), ("N", "7"), ("O", "8"),
    ("F", "9"), ("Ne", "10"), ("Na", "11"), ("Mg", "12"), ("Al", "13"), ("Si", "14"), ("P", "15"),
    ("S", "16"), ("Cl", "17"), ("Ar", "18"), ("K", "19"), ("Ca", "20"), ("Sc", "21"), ("Ti", "22"),
    ("V", "23"), ("Cr", "24"), ("Mn", "25"), ("Fe", "26"), ("Co", "27"), ("Ni", "28"), ("Cu", "29"),
    ("Zn", "30"), ("Ga", "31"), ("Ge", "32"), ("As", "33"), ("Se", "34"), ("Br", "35"), ("Kr", "36"),
    ("Rb", "37"), ("Sr", "38"), ("Y", "39"), ("Zr", "40"), ("Nb", "41"), ("Mo", "42"), ("Tc", "43"),
    ("Ru", "44"), ("Rh", "45"), ("Pd", "46"), ("Ag", "47"), ("Cd", "48"), ("In", "49"), ("Sn", "50"),
    ("Sb", "51"), ("Te", "52"), ("I", "53"), ("Xe", "54"), ("Cs", "55"), ("Ba", "56"), ("La", "57"),
    ("Ce", "58"), ("Pr", "59"), ("Nd", "60"), ("Pm", "61"), ("Sm", "62"), ("Eu", "63"), ("Gd", "64"),
    ("Tb", "65"), ("Dy", "66"), ("Ho", "67"), ("Er", "68"), ("Tm", "69"), ("Yb", "70"), ("Lu", "71"),
    ("Hf", "72"), ("Ta", "73"), ("W", "74"), ("Re", "75"), ("Os", "76"), ("Ir", "77"), ("Pt", "78"),
    ("Au", "79"), ("Hg", "80"), ("Tl", "81"), ("Pb", "82"), ("Bi", "83"), ("Po", "84"), ("At", "85"),
    ("Rn", "86"), ("Fr", "87"), ("Ra", "88"), ("Ac", "89"), ("Th", "90"), ("Pa", "91"), ("U", "92")]

  /** `ion_dict`: VALD's ionisation stage (1 for neutral) to the decimal part of the code. */
  const IonTable: seq<(string, string)> := [
    ("1", ".0"), ("2", ".1"), ("3", ".2"), ("4", ".3"), ("5", ".4"), ("6", "0.5"), ("7", "0.6"),
    ("8", "0.7"), ("9", "0.8"), ("10", "0.9")]

  /** `mol_dict`: a molecule to its SPECTRUM code. */
  const MoleculeTable: seq<(string, string)> := [
    ("MgH", "112.0"), ("TiO", "822.0"), ("C2", "606.0"), ("H2", "101.0"), ("CN", "607.0"), ("SiO", "814.0"),
    ("CH", "106.0"), ("OH", "608.0"), ("SiH", "114")]

  /** The three tables of lines 402-419. */
  datatype Tables = Tables(elements: seq<(string, string)>, ions: seq<(string, string)>, molecules: seq<(string, string)>)

  const ValdTables := Tables(ElementTable, IonTable, MoleculeTable)

  /**
   * The exceptions a record can raise: `NoSpace` is the ValueError of `index(" ")`,
   * `UnknownIon` the TypeError of adding `None` to the atomic number, `UnknownSpecies` the
   * TypeError of formatting a `None` code, `BadEnergy` the ValueError of `int()`.
   */
  datatype SpectrumError = NoSpace | UnknownIon | UnknownSpecies | BadEnergy

  /**
   * Lines 426-431 and the formatting at line 434: the symbol runs from after the opening
   * quote to the first space; an element takes its number and the code of the ion stage
   * that runs from after that space to the last character; anything else is looked up
   * among the molecules.
   */
  function SpeciesCode(field: string, t: Tables): (r: Result<string, SpectrumError>)
  {
    match Find(field, ' ')
    case None => Failure(NoSpace)
    case Some(i) =>
      var symbol := Slice(field, 1, i);
      match Get(t.elements, symbol)
      case Some(element) =>
        (match Get(t.ions, Slice(field, i + 1, -1))
         case Some(stage) => Success(element + stage)
         case None => Failure(UnknownIon))
      case None =>
        match Get(t.molecules, symbol)
        case Some(code) => Success(code)
        case None => Failure(UnknownSpecies)
  }

  /** The quoted species field as VALD writes it, `'Fe 2'`. */
  function SpeciesField(symbol: string, stage: string): (r: string)
  {
    "'" + symbol + " " + stage + "'"
  }

  lemma SpeciesFieldParts(symbol: string, stage: string)
    requires Free(symbol, ' ')
    ensures Find(SpeciesField(symbol, stage), ' ') == Some(|symbol| + 1)
    ensures Slice(SpeciesField(symbol, stage), 1, |symbol| + 1) == symbol
    ensures Slice(SpeciesField(symbol, stage), |symbol| + 2, -1) == stage
  {
    var f := SpeciesField(symbol, stage);
    assert f[|symbol| + 1] == ' ';
    forall k | 0 <= k < |symbol| + 1 ensures f[k] != ' ' {
      if k > 0 {
        assert f[k] == symbol[k - 1];
      }
    }
    SliceInRange(f, 1, |symbol| + 1);
    SliceInRange(f, |symbol| + 2, |f| - 1);
  }

  /** An element in a known ion stage gets its atomic number followed by the stage's code. */
  lemma ElementCode(symbol: string, stage: string, t: Tables)
    requires Get(t.elements, symbol).Some? && Get(t.ions, stage).Some? && Free(symbol, ' ')
    ensures SpeciesCode(SpeciesField(symbol, stage), t) == Success(Get(t.elements, symbol).value + Get(t.ions, stage).value)
  {
    SpeciesFieldParts(symbol, stage);
  }

  /** An element in a stage outside the table raises. */
  lemma ElementUnknownStage(symbol: string, stage: string, t: Tables)
    requires Get(t.elements, symbol).Some? && Get(t.ions, stage).None? && Free(symbol, ' ')
    ensures SpeciesCode(SpeciesField(symbol, stage), t) == Failure(UnknownIon)
  {
    SpeciesFieldParts(symbol, stage);
  }

  /** A molecule gets its code whatever stage follows it. */
  lemma MoleculeCode(symbol: string, stage: string, t: Tables)
    requires Get(t.elements, symbol).None? && Get(t.molecules, symbol).Some? && Free(symbol, ' ')
    ensures SpeciesCode(SpeciesField(symbol, stage), t) == Success(Get(t.molecules, symbol).value)
  {
    SpeciesFieldParts(symbol, stage);
  }

  /** A symbol in neither table raises. */
  lemma UnknownSymbol(symbol: string, stage: string, t: Tables)
    requires Get(t.elements, symbol).None? && Get(t.molecules, symbol).None? && Free(symbol, ' ')
    ensures SpeciesCode(SpeciesField(symbol, stage), t) == Failure(UnknownSpecies)
  {
    SpeciesFieldParts(symbol, stage);
  }

  // ---------------------------------------------------------------------------
  // The record (lines 433-451)

  /** The column widths, with the mass-number column in isotope mode. */
  function Widths(isotope: bool): (r: seq<nat>)
  {
    if isotope then [12, 8, 4, 12, 12, 12, 10, 4, 8] else [12, 8, 12, 12, 12, 10, 4, 8]
  }

  /** The texts of the columns. */
  function RecordFields(wavelength: string, code: string, isotope: bool, eLow: int, eHigh: int, loggf: string): (r: seq<string>)
  {
    [wavelength, code] + (if isotope then ["0"] else [])
      + [IntToString(eLow), IntToString(eHigh), loggf, "1.000", "99", "VALD"]
  }

  /** The texts, each left-justified to its width (`"{:<w}".format`), one after another. */
  function Justified(fields: seq<string>, widths: seq<nat>): (r: string)
    requires |fields| == |widths|
  {
    if fields == [] then [] else LeftJustify(fields[0], widths[0]) + Justified(fields[1..], widths[1..])
  }

  /** Lines 450-451: the columns of one record, then the newline. */
  function RecordText(texts: seq<string>, isotope: bool): (r: string)
    requires |texts| == |Widths(isotope)|
  {
    Justified(texts, Widths(isotope)) + "\n"
  }

  /** Lines 425-451: the record of one line of at least 13 fields, or the exception it raises. */
  function Record(fields: seq<string>, isotope: bool, t: Tables): (r: Result<string, SpectrumError>)
    requires |fields| >= 13
  {
    match SpeciesCode(fields[0], t)
    case Failure(e) => Failure(e)
    case Success(code) =>
      match (ParseInt(Strip(fields[3])), ParseInt(Strip(fields[5])))
      case (None, _) => Failure(BadEnergy)
      case (_, None) => Failure(BadEnergy)
      case (Some(eLow), Some(eHigh)) =>
        Success(RecordText(RecordFields(Strip(fields[1]), code, isotope, eLow, eHigh, fields[2]), isotope))
  }

  /** Reading a record back: each column cut at its width, with its padding trimmed. */
  function ReadColumns(r: string, widths: seq<nat>): (cols: seq<string>)
  {
    if widths == [] then []
    else if |r| < widths[0] then [TrimRight(r)]
    else [TrimRight(r[..widths[0]])] + ReadColumns(r[widths[0]..], widths[1..])
  }

  predicate Fits(fields: seq<string>, widths: seq<nat>)
  {
    && |fields| == |widths|
    && forall k :: 0 <= k < |fields| ==> |fields[k]| <= widths[k] && (|fields[k]| == 0 || fields[k][|fields[k]| - 1] != ' ')
  }

  function Sum(widths: seq<nat>): (r: nat)
  {
    if widths == [] then 0 else widths[0] + Sum(widths[1..])
  }

  /**
   * When every text fits its column and does not end in a space, the columns are where
   * the widths put them: the record is as long as the widths add up to, and reading it
   * back column by column gives the texts.
   */
  lemma {:induction false} ReadJustified(fields: seq<string>, widths: seq<nat>)
    requires Fits(fields, widths)
    ensures |Justified(fields, widths)| == Sum(widths)
    ensures ReadColumns(Justified(fields, widths), widths) == fields
  {
    if fields != [] {
      FitsTail(fields, widths);
      ReadJustified(fields[1..], widths[1..]);
      var rest := Justified(fields[1..], widths[1..]);
      ReadColumnStep(fields[0], fields[1..], widths[0], widths[1..], rest);
      assert Justified(fields, widths) == LeftJustify(fields[0], widths[0]) + rest;
      assert [widths[0]] + widths[1..] == widths;
      assert [fields[0]] + fields[1..] == fields;
      assert Sum(widths) == widths[0] + Sum(widths[1..]);
    }
  }

  /** One column more in front: it is read back as its text. */
  lemma ReadColumnStep(text: string, texts: seq<string>, width: nat, widths: seq<nat>, rest: string)
    requires |text| <= width && (|text| == 0 || text[|text| - 1] != ' ')
    requires ReadColumns(rest, widths) == texts
    ensures ReadColumns(LeftJustify(text, width) + rest, [width] + widths) == [text] + texts
  {
    TrimRightOfLeftJustify(text, width);
    ReadColumnsCons(LeftJustify(text, width), rest, [width] + widths);
    assert ([width] + widths)[1..] == widths;
  }

  lemma FitsTail(fields: seq<string>, widths: seq<nat>)
    requires Fits(fields, widths) && fields != []
    ensures Fits(fields[1..], widths[1..]) && |fields[0]| <= widths[0]
    ensures |fields[0]| == 0 || fields[0][|fields[0]| - 1] != ' '
  {
    assert forall k :: 0 <= k < |fields| - 1 ==> fields[1..][k] == fields[k + 1] && widths[1..][k] == widths[k + 1];
  }

  lemma ReadColumnsCons(head: string, rest: string, widths: seq<nat>)
    requires widths != [] && |head| == widths[0]
    ensures ReadColumns(head + rest, widths) == [TrimRight(head)] + ReadColumns(rest, widths[1..])
  {
    var r := head + rest;
    assert r[..widths[0]] == head && r[widths[0]..] == rest;
  }

  /** A text longer than its column is written whole: the columns after it move along. */
  lemma JustifiedNeverCuts(fields: seq<string>, widths: seq<nat>)
    requires |fields| == |widths| && fields != []
    ensures Justified(fields, widths)[..|fields[0]|] == fields[0]
  {
  }

  /** The columns add up to 78 characters, 82 with the mass number. */
  lemma RecordWidth(isotope: bool)
    ensures Sum(Widths(isotope)) == if isotope then 82 else 78
  {
    if isotope {
      assert Sum(Widths(true)) == 82;
    } else {
      assert Sum(Widths(false)) == 78;
    }
  }

  /** Every record ends with the newline of line 451. */
  lemma RecordEndsLine(fields: seq<string>, isotope: bool, t: Tables)
    requires |fields| >= 13 && Record(fields, isotope, t).Success?
    ensures var r := Record(fields, isotope, t).value; |r| > 0 && r[|r| - 1] == '\n'
  {
  }

  /**
   * The record of a line whose columns fit is 79 characters long (83 in isotope mode),
   * and its columns read back as the stripped wavelength, the species code, the mass
   * number, the two energies as integers, log gf as written and the three constants.
   */
  lemma RecordLayout(fields: seq<string>, isotope: bool, t: Tables, code: string, eLow: int, eHigh: int)
    requires |fields| >= 13
    requires SpeciesCode(fields[0], t) == Success(code)
    requires ParseInt(Strip(fields[3])) == Some(eLow) && ParseInt(Strip(fields[5])) == Some(eHigh)
    requires Fits(RecordFields(Strip(fields[1]), code, isotope, eLow, eHigh, fields[2]), Widths(isotope))
    ensures Record(fields, isotope, t).Success?
    ensures |Record(fields, isotope, t).value| == if isotope then 83 else 79
    ensures ReadColumns(Record(fields, isotope, t).value[..|Record(fields, isotope, t).value| - 1], Widths(isotope))
      == RecordFields(Strip(fields[1]), code, isotope, eLow, eHigh, fields[2])
  {
    var texts := RecordFields(Strip(fields[1]), code, isotope, eLow, eHigh, fields[2]);
    assert Record(fields, isotope, t) == Success(RecordText(texts, isotope));
    RecordTextLayout(texts, isotope);
  }

  lemma RecordTextLayout(texts: seq<string>, isotope: bool)
    requires Fits(texts, Widths(isotope))
    ensures |RecordText(texts, isotope)| == if isotope then 83 else 79
    ensures ReadColumns(RecordText(texts, isotope)[..|RecordText(texts, isotope)| - 1], Widths(isotope)) == texts
  {
    var w := Widths(isotope);
    ReadJustified(texts, w);
    RecordWidth(isotope);
    var j := Justified(texts, w);
    assert (j + "\n")[..|j|] == j;
  }

  // ---------------------------------------------------------------------------
  // The conversion (lines 421-455)

  /** The records written to the output file, and the exception raised after them, if any. */
  datatype Converted = Converted(records: seq<string>, error: Option<SpectrumError>)

  /** What one input line leads to. */
  datatype LineStep = Emit(record: string) | Skip | Stop | Raise(error: SpectrumError)

  /** Lines 424-455 for one line. */
  function Step(line: string, isotope: bool, t: Tables): (r: LineStep)
  {
    var fields := SplitOn(line, ',');
    if |fields| >= 13 then
      match Record(fields, isotope, t)
      case Failure(e) => Raise(e)
      case Success(r) => Emit(r)
    else if fields[0] == "*" then Stop
    else Skip
  }

  /** Lines 421-455 with `eV=False`. */
  function Convert(lines: seq<string>, isotope: bool, t: Tables): (c: Converted)
  {
    if lines == [] then Converted([], None)
    else match Step(lines[0], isotope, t)
      case Raise(e) => Converted([], Some(e))
      case Emit(r) =>
        var rest := Convert(lines[1..], isotope, t);
        Converted([r] + rest.records, rest.error)
      case Stop => Converted([], None)
      case Skip => Convert(lines[1..], isotope, t)
  }

  /** Line 454: a short line whose first field is exactly "*". */
  predicate Ends(line: string)
  {
    var fields := SplitOn(line, ',');
    |fields| < 13 && fields[0] == "*"
  }

  /** The lines before the first one that ends the conversion. */
  function EndIndex(lines: seq<string>): (n: nat)
    ensures n <= |lines|
    ensures n < |lines| ==> Ends(lines[n])
  {
    if lines == [] || Ends(lines[0]) then 0 else 1 + EndIndex(lines[1..])
  }

  /** EndIndex is the first line that ends the conversion, or the end of the input. */
  lemma {:induction false} EndIndexFirst(lines: seq<string>)
    ensures var n := EndIndex(lines); n < |lines| ==> Ends(lines[n])
    ensures forall i :: 0 <= i < EndIndex(lines) ==> !Ends(lines[i])
  {
    if lines != [] && !Ends(lines[0]) {
      EndIndexFirst(lines[1..]);
      forall i | 0 <= i < EndIndex(lines) ensures !Ends(lines[i]) {
        if i > 0 {
          assert lines[i] == lines[1..][i - 1];
        }
      }
    }
  }

  /** Nothing from the ending line on is converted. */
  lemma {:induction false} ConvertStopsAtEnd(lines: seq<string>, isotope: bool, t: Tables)
    ensures Convert(lines, isotope, t) == Convert(lines[..EndIndex(lines)], isotope, t)
  {
    if lines != [] && !Ends(lines[0]) {
      ConvertStopsAtEnd(lines[1..], isotope, t);
      EndIndexCons(lines);
      var front := lines[..EndIndex(lines)];
      assert front[0] == lines[0] && front[1..] == lines[1..][..EndIndex(lines[1..])];
      ConvertSameHead(lines, front, isotope, t);
    }
  }

  /** Two inputs with the same first line and the same conversion after it convert alike. */
  lemma ConvertSameHead(a: seq<string>, b: seq<string>, isotope: bool, t: Tables)
    requires a != [] && b != [] && a[0] == b[0]
    requires Convert(a[1..], isotope, t) == Convert(b[1..], isotope, t)
    ensures Convert(a, isotope, t) == Convert(b, isotope, t)
  {
  }

  /** A line of at least 13 fields. */
  predicate Wide(line: string)
  {
    |SplitOn(line, ',')| >= 13
  }

  /** `r` is the record written for `line`. */
  predicate RecordOf(line: string, r: string, isotope: bool, t: Tables)
  {
    Wide(line) && Record(SplitOn(line, ','), isotope, t) == Success(r)
  }

  /** The lines of at least 13 fields, in order. */
  function WideLines(lines: seq<string>): (w: seq<string>)
    ensures |w| <= |lines|
  {
    if lines == [] then [] else (if Wide(lines[0]) then [lines[0]] else []) + WideLines(lines[1..])
  }

  /**
   * A conversion that raises nothing writes one record per line of at least 13 fields
   * before the ending line, in order, and the k-th record is the record of the k-th such line.
   */
  lemma {:induction false} ConvertRecordsWideLines(lines: seq<string>, isotope: bool, t: Tables)
    requires Convert(lines, isotope, t).error.None?
    ensures var w := WideLines(lines[..EndIndex(lines)]); var rs := Convert(lines, isotope, t).records;
      |rs| == |w| && forall k :: 0 <= k < |w| ==> RecordOf(w[k], rs[k], isotope, t)
  {
    if lines == [] || Ends(lines[0]) {
      assert lines[..EndIndex(lines)] == [];
      if lines != [] {
        ConvertAtEnd(lines, isotope, t);
      }
    } else {
      ConvertOneLine(lines, isotope, t);
      ConvertRecordsWideLines(lines[1..], isotope, t);
      EndIndexCons(lines);
      var rest := lines[1..][..EndIndex(lines[1..])];
      RecordsWideLinesStep(lines[0], rest, Convert(lines, isotope, t).records, Convert(lines[1..], isotope, t).records, isotope, t);
    }
  }

  /** The lines before the ending line, one line at a time. */
  lemma EndIndexCons(lines: seq<string>)
    requires lines != [] && !Ends(lines[0])
    ensures lines[..EndIndex(lines)] == [lines[0]] + lines[1..][..EndIndex(lines[1..])]
  {
    assert EndIndex(lines) == 1 + EndIndex(lines[1..]);
  }

  /** The inductive step of ConvertRecordsWideLines: `rs` and `rs'` are the records written from `[line] + rest` and from `rest`. */
  lemma RecordsWideLinesStep(line: string, rest: seq<string>, rs: seq<string>, rs': seq<string>, isotope: bool, t: Tables)
    requires Wide(line) ==> Record(SplitOn(line, ','), isotope, t).Success? && rs == [Record(SplitOn(line, ','), isotope, t).value] + rs'
    requires !Wide(line) ==> rs == rs'
    requires var w := WideLines(rest); |rs'| == |w| && forall k :: 0 <= k < |w| ==> RecordOf(w[k], rs'[k], isotope, t)
    ensures var w := WideLines([line] + rest); |rs| == |w| && forall k :: 0 <= k < |w| ==> RecordOf(w[k], rs[k], isotope, t)
  {
    WideLinesCons(line, rest);
    var w' := WideLines(rest);
    if Wide(line) {
      assert WideLines([line] + rest) == [line] + w';
      RecordsCons(line, w', rs', isotope, t);
    } else {
      assert WideLines([line] + rest) == w';
    }
  }

  /** The ending line writes nothing. */
  lemma ConvertAtEnd(lines: seq<string>, isotope: bool, t: Tables)
    requires lines != [] && Ends(lines[0])
    ensures Convert(lines, isotope, t) == Converted([], None)
  {
  }

  /** Any other line adds its record, if it is wide, in front of the rest's. */
  lemma ConvertOneLine(lines: seq<string>, isotope: bool, t: Tables)
    requires lines != [] && !Ends(lines[0]) && Convert(lines, isotope, t).error.None?
    ensures Convert(lines[1..], isotope, t).error.None?
    ensures Wide(lines[0]) ==>
      && Record(SplitOn(lines[0], ','), isotope, t).Success?
      && Convert(lines, isotope, t).records == [Record(SplitOn(lines[0], ','), isotope, t).value] + Convert(lines[1..], isotope, t).records
    ensures !Wide(lines[0]) ==> Convert(lines, isotope, t) == Convert(lines[1..], isotope, t)
  {
  }

  /** WideLines one line at a time. */
  lemma WideLinesCons(line: string, rest: seq<string>)
    ensures WideLines([line] + rest) == (if Wide(line) then [line] else []) + WideLines(rest)
  {
    assert ([line] + rest)[1..] == rest;
  }

  /** The record correspondence extends by one wide line and its record. */
  lemma RecordsCons(line: string, w: seq<string>, rs: seq<string>, isotope: bool, t: Tables)
    requires Wide(line) && Record(SplitOn(line, ','), isotope, t).Success?
    requires |rs| == |w| && forall k :: 0 <= k < |w| ==> RecordOf(w[k], rs[k], isotope, t)
    ensures var w', rs' := [line] + w, [Record(SplitOn(line, ','), isotope, t).value] + rs;
      |rs'| == |w'| && forall k :: 0 <= k < |w'| ==> RecordOf(w'[k], rs'[k], isotope, t)
  {
    var w', rs' := [line] + w, [Record(SplitOn(line, ','), isotope, t).value] + rs;
    forall k | 0 <= k < |w'| ensures RecordOf(w'[k], rs'[k], isotope, t) {
      if k > 0 {
        assert w'[k] == w[k - 1] && rs'[k] == rs[k - 1];
      }
    }
  }

  /** Lines 421-455 with `eV=False`: the output file holds the records written before any exception. */
  method VALDToSpectrum(lines: seq<string>, isotope: bool, t: Tables) returns (records: seq<string>, error: Option<SpectrumError>)
    ensures Converted(records, error) == Convert(lines, isotope, t)
  {
    records, error := [], None;
    var rest := lines;
    while rest != []
      invariant Convert(lines, isotope, t) == Prepend(records, Convert(rest, isotope, t))
    {
      var step := Step(rest[0], isotope, t);
      ConvertUnfold(rest, isotope, t);
      match step {
        case Raise(e) =>
          error := Some(e);
          return;
        case Emit(r) =>
          PrependTwice(records, r, Convert(rest[1..], isotope, t));
          records := records + [r];
        case Stop =>
          return;
        case Skip =>
      }
      rest := rest[1..];
    }
    assert records + [] == records;
  }

  /** The records `front`, then those of `c`, and the exception of `c`. */
  function Prepend(front: seq<string>, c: Converted): (r: Converted)
    ensures |r.records| == |front| + |c.records| && r.records[..|front|] == front && r.error == c.error
  {
    Converted(front + c.records, c.error)
  }

  lemma PrependTwice(front: seq<string>, r: string, c: Converted)
    ensures Prepend(front, Prepend([r], c)) == Prepend(front + [r], c)
  {
    assert front + ([r] + c.records) == (front + [r]) + c.records;
  }

  /** One line of the conversion: its step decides what comes before the rest. */
  lemma ConvertUnfold(lines: seq<string>, isotope: bool, t: Tables)
    requires lines != []
    ensures Step(lines[0], isotope, t).Raise? ==> Convert(lines, isotope, t) == Converted([], Some(Step(lines[0], isotope, t).error))
    ensures Step(lines[0], isotope, t).Stop? ==> Convert(lines, isotope, t) == Converted([], None)
    ensures Step(lines[0], isotope, t).Skip? ==> Convert(lines, isotope, t) == Convert(lines[1..], isotope, t)
    ensures Step(lines[0], isotope, t).Emit? ==> Convert(lines, isotope, t) == Prepend([Step(lines[0], isotope, t).record], Convert(lines[1..], isotope, t))
  {
  }
}
