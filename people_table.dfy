/**
 * parseJPData: the people table is read line by line through a three-state
 * machine.  Lines before the first line with a comma are preamble, that line
 * is the header, the lines after it are rows up to the first line without a
 * comma, and everything from there on is footer.
 */
module PeopleTable {
  import opened Wrappers

  predicate HasComma(line: string)
  {
    ',' in line
  }

  datatype Mode = Init | Body | Footer

  /** The machine's variables: `mode`, the header line, and the row lines kept so far. */
  datatype Scanned = Scanned(mode: Mode, header: Option<string>, body: seq<string>)

  const Start := Scanned(Init, None, [])

  /** One turn of the `switch (mode)` for one line. */
  function Step(s: Scanned, line: string): Scanned
  {
    match s.mode
    case Init => if HasComma(line) then Scanned(Body, Some(line), []) else s
    case Body => if !HasComma(line) then Scanned(Footer, s.header, s.body) else Scanned(Body, s.header, s.body + [line])
    case Footer => s
  }

  /** `lines.forEach(...)` from state `s`. */
  function ScanFrom(s: Scanned, lines: seq<string>): Scanned
    decreases |lines|
  {
    if lines == [] then s else ScanFrom(Step(s, lines[0]), lines[1..])
  }

  /** The loop of parseJPData over the lines of the file. */
  method SelectLines(lines: seq<string>) returns (header: Option<string>, body: seq<string>)
    ensures Scanned(ScanFrom(Start, lines).mode, header, body) == ScanFrom(Start, lines)
    ensures match HeaderAt(lines)
            case None => header == None && body == []
            case Some(h) => header == Some(lines[h]) && body == CommaRun(lines[h + 1..])
  {
    SelectedLines(lines);
    var mode := Init;
    header, body := None, [];
    var i := 0;
    while i < |lines|
      invariant 0 <= i <= |lines|
      invariant mode == Init ==> header == None && body == []
      invariant ScanFrom(Scanned(mode, header, body), lines[i..]) == ScanFrom(Start, lines)
    {
      var line := lines[i];
      assert lines[i..][1..] == lines[i + 1..];
      match mode {
        case Init =>
          if ',' in line {
            mode := Body;
            header := Some(line);
          }
        case Body =>
          if ',' !in line {
            mode := Footer;
          } else {
            body := body + [line];
          }
        case Footer =>
      }
      i := i + 1;
    }
  }

  // ----- the reference description -----

  /** The index of the first line with a comma. */
  function HeaderAt(lines: seq<string>): (r: Option<nat>)
    ensures r.None? ==> forall j :: 0 <= j < |lines| ==> !HasComma(lines[j])
    ensures r.Some? ==> r.value < |lines| && HasComma(lines[r.value])
                        && forall j :: 0 <= j < r.value ==> !HasComma(lines[j])
  {
    if lines == [] then None
    else if HasComma(lines[0]) then Some(0)
    else match HeaderAt(lines[1..]) case None => None case Some(h) => Some(h + 1)
  }

  /** The longest run of lines with commas at the front of `lines`. */
  function CommaRun(lines: seq<string>): (r: seq<string>)
    ensures |r| <= |lines| && r == lines[..|r|]
    ensures forall j :: 0 <= j < |r| ==> HasComma(r[j])
    ensures |r| < |lines| ==> !HasComma(lines[|r|])
  {
    if lines == [] || !HasComma(lines[0]) then []
    else [lines[0]] + CommaRun(lines[1..])
  }

  lemma {:induction false} FooterStays(s: Scanned, lines: seq<string>)
    requires s.mode == Footer
    ensures ScanFrom(s, lines) == s
    decreases |lines|
  {
    if lines != [] {
      FooterStays(s, lines[1..]);
    }
  }

  lemma {:induction false} BodyScan(header: Option<string>, body: seq<string>, lines: seq<string>)
    ensures ScanFrom(Scanned(Body, header, body), lines).header == header
    ensures ScanFrom(Scanned(Body, header, body), lines).body == body + CommaRun(lines)
    decreases |lines|
  {
    if lines == [] {
      assert body + [] == body;
    } else if !HasComma(lines[0]) {
      FooterStays(Scanned(Footer, header, body), lines[1..]);
      assert body + [] == body;
    } else {
      BodyScan(header, body + [lines[0]], lines[1..]);
      assert body + [lines[0]] + CommaRun(lines[1..]) == body + ([lines[0]] + CommaRun(lines[1..]));
    }
  }

  /**
   * What the machine selects: no header and no rows when no line has a
   * comma; otherwise the first line with a comma is the header and the rows
   * are the unbroken run of comma lines right after it.
   */
  lemma {:induction false} SelectedLines(lines: seq<string>)
    ensures var s := ScanFrom(Start, lines);
            match HeaderAt(lines)
            case None => s.header == None && s.body == []
            case Some(h) => s.header == Some(lines[h]) && s.body == CommaRun(lines[h + 1..])
    decreases |lines|
  {
    if lines != [] {
      if HasComma(lines[0]) {
        BodyScan(Some(lines[0]), [], lines[1..]);
        assert [] + CommaRun(lines[1..]) == CommaRun(lines[1..]);
      } else {
        SelectedLines(lines[1..]);
        match HeaderAt(lines[1..]) {
          case None =>
          case Some(h) =>
            assert lines[h + 1] == lines[1..][h];
            assert lines[h + 2..] == lines[1..][h + 1..];
        }
      }
    }
  }
}
