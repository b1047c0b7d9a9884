/**
 * The alignment reader of the HKY example: each paragraph of the file is a
 * name line "<species><paralog>" and a sequence line over ACGT; the reader
 * returns the observed node and paralog of every sequence and the alignment
 * columns.
 */
module Alignment {
  import opened Wrappers
  import opened Sequences
  import opened TextLines

  /** str.endswith(suffix). */
  predicate EndsWith(s: string, suffix: string) {
    |suffix| <= |s| && s[|s| - |suffix|..] == suffix
  }

  /** The index of the first paralog name at or after i that full_name ends with. */
  function FirstSuffix(fullName: string, names: seq<string>, i: nat): (r: Option<nat>)
    ensures r.None? <==> forall k :: i <= k < |names| ==> !EndsWith(fullName, names[k])
    ensures r.Some? ==> (i <= r.value < |names| && EndsWith(fullName, names[r.value]) &&
      forall k :: i <= k < r.value ==> !EndsWith(fullName, names[k]))
    decreases |names| - i
  {
    if i >= |names| then None
    else if EndsWith(fullName, names[i]) then Some(i)
    else FirstSuffix(fullName, names, i + 1)
  }

  /** Python's s[:-k]: all but the last k characters when k > 0, but the empty string when k == 0. */
  function PyDropLast(s: string, k: nat): (r: string)
    requires k <= |s|
    ensures k > 0 ==> r == s[..|s| - k]
    ensures k == 0 ==> r == ""
  {
    if k == 0 then "" else s[..|s| - k]
  }

  /**
   * parse_full_name as written: the species is full_name[:-len(paralog_name)],
   * which is empty, not full_name, when the matching paralog name is empty.
   */
  function ParseFullNameAsWritten(fullName: string, names: seq<string>): (r: Option<(string, nat)>)
    ensures r.None? <==> forall k :: 0 <= k < |names| ==> !EndsWith(fullName, names[k])
    ensures r.Some? ==> r.value.1 < |names| && EndsWith(fullName, names[r.value.1]) && r.value.0 == PyDropLast(fullName, |names[r.value.1]|)
  {
    match FirstSuffix(fullName, names, 0)
    case None => None
    case Some(i) => Some((PyDropLast(fullName, |names[i]|), i))
  }

  /** An empty paralog name makes the species name empty, so species + paralog loses the name. */
  lemma EmptyParalogLosesSpecies()
    ensures ParseFullNameAsWritten("YAL001", [""]) == Some(("", 0))
    ensures ParseFullNameAsWritten("YAL001", [""]).value.0 + "" != "YAL001"
  {
    assert EndsWith("YAL001", "");
  }

  /**
   * parse_full_name(full_name, paralog_names), with the species taken as
   * the part of full_name before the matching paralog name: the first name
   * full_name ends with, None (the raised exception) when there is none.
   */
  function ParseFullName(fullName: string, names: seq<string>): (r: Option<(string, nat)>)
    ensures r.None? <==> forall k :: 0 <= k < |names| ==> !EndsWith(fullName, names[k])
    ensures r.Some? ==> r.value.1 < |names| && r.value.0 + names[r.value.1] == fullName
    ensures r.Some? ==> forall k :: 0 <= k < r.value.1 ==> !EndsWith(fullName, names[k])
  {
    match FirstSuffix(fullName, names, 0)
    case None => None
    case Some(i) =>
      var species := fullName[..|fullName| - |names[i]|];
      assert species + names[i] == fullName;
      Some((species, i))
  }

  /** The two agree whenever no paralog name is empty. */
  lemma ParseFullNameAgrees(fullName: string, names: seq<string>)
    requires forall k :: 0 <= k < |names| ==> names[k] != ""
    ensures ParseFullNameAsWritten(fullName, names) == ParseFullName(fullName, names)
  {
  }

  /** 'ACGT'.index(c): None (the raised ValueError) for any other character. */
  function NucleotideIndex(c: char): (r: Option<nat>)
    ensures r.Some? <==> c in "ACGT"
    ensures r.Some? ==> r.value < 4 && "ACGT"[r.value] == c
  {
    if c == 'A' then Some(0)
    else if c == 'C' then Some(1)
    else if c == 'G' then Some(2)
    else if c == 'T' then Some(3)
    else None
  }

  /** The nucleotide letters of a row of states. */
  function Decode(row: seq<nat>): string
    requires forall k :: 0 <= k < |row| ==> row[k] < 4
  {
    seq(|row|, k requires 0 <= k < |row| => "ACGT"[row[k]])
  }

  /** ['ACGT'.index(x) for x in line]: defined exactly when every letter is one of ACGT. */
  function EncodeRow(line: string): (r: Option<seq<nat>>)
    ensures r.Some? <==> forall k :: 0 <= k < |line| ==> line[k] in "ACGT"
    ensures r.Some? ==> |r.value| == |line| && (forall k :: 0 <= k < |line| ==> r.value[k] < 4) && Decode(r.value) == line
  {
    if |line| == 0 then Some([])
    else
      match NucleotideIndex(line[0])
      case None => None
      case Some(x) =>
        match EncodeRow(line[1..])
        case None =>
          assert forall k :: 1 <= k < |line| ==> line[k] == line[1..][k - 1];
          None
        case Some(rest) =>
          var row := [x] + rest;
          assert forall k :: 1 <= k < |line| ==> line[k] == line[1..][k - 1];
          assert Decode(row) == line by {
            assert forall k :: 1 <= k < |row| ==> Decode(row)[k] == Decode(rest)[k - 1];
          }
          Some(row)
  }

  /** What one paragraph contributes: the node and paralog observed and the row of states. */
  datatype Record = Record(node: nat, variable: nat, row: seq<nat>)

  /**
   * One iteration of get_alignment_info on a paragraph: exactly two lines,
   * a name line whose stripped text splits into a known species and a
   * paralog, and a stripped sequence line over ACGT; None for the raised
   * exceptions (wrong line count, no paralog match, unknown species, bad
   * letter).
   */
  function ParseRecord(lines: seq<string>, nameToNode: map<string, nat>, paralogNames: seq<string>): Option<Record> {
    if |lines| != 2 then None
    else
      match ParseFullName(Strip(lines[0]), paralogNames)
      case None => None
      case Some((species, variable)) =>
        if species !in nameToNode then None
        else
          match EncodeRow(Strip(lines[1]))
          case None => None
          case Some(row) => Some(Record(nameToNode[species], variable, row))
  }

  /**
   * A paragraph is accepted exactly when it has two lines, its stripped
   * name line is a known species followed by a paralog name, and its
   * stripped sequence line is over ACGT; the record then holds that
   * species' node, the paralog's index, and the row that spells the
   * sequence line.
   */
  lemma ParseRecordMeaning(lines: seq<string>, nameToNode: map<string, nat>, paralogNames: seq<string>)
    ensures var r := ParseRecord(lines, nameToNode, paralogNames);
      r.Some? <==> (|lines| == 2 && ParseFullName(Strip(lines[0]), paralogNames).Some? &&
        ParseFullName(Strip(lines[0]), paralogNames).value.0 in nameToNode && EncodeRow(Strip(lines[1])).Some?)
    ensures var r := ParseRecord(lines, nameToNode, paralogNames);
      r.Some? ==> var (species, variable) := ParseFullName(Strip(lines[0]), paralogNames).value;
        r.value.node == nameToNode[species] && r.value.variable == variable &&
        species + paralogNames[variable] == Strip(lines[0]) &&
        (forall k :: 0 <= k < |r.value.row| ==> r.value.row[k] < 4) && Decode(r.value.row) == Strip(lines[1])
  {
  }

  /**
   * The same paragraph step with parse_full_name as written: an empty
   * paralog name leaves the species empty, so the lookup of "" in
   * name_to_node fails (the raised KeyError) unless "" names a node.
   */
  function ParseRecordAsWritten(lines: seq<string>, nameToNode: map<string, nat>, paralogNames: seq<string>): Option<Record> {
    if |lines| != 2 then None
    else
      match ParseFullNameAsWritten(Strip(lines[0]), paralogNames)
      case None => None
      case Some((species, variable)) =>
        if species !in nameToNode then None
        else
          match EncodeRow(Strip(lines[1]))
          case None => None
          case Some(row) => Some(Record(nameToNode[species], variable, row))
  }

  /** With no empty paralog name the step as written and the corrected step agree. */
  lemma ParseRecordAgrees(lines: seq<string>, nameToNode: map<string, nat>, paralogNames: seq<string>)
    requires forall k :: 0 <= k < |paralogNames| ==> paralogNames[k] != ""
    ensures ParseRecordAsWritten(lines, nameToNode, paralogNames) == ParseRecord(lines, nameToNode, paralogNames)
  {
    if |lines| == 2 {
      ParseFullNameAgrees(Strip(lines[0]), paralogNames);
    }
  }

  /**
   * A leading empty paralog name: the step as written looks up the species
   * "" and rejects every two-line paragraph when "" names no node.
   */
  lemma EmptyParalogRejectsRecord(lines: seq<string>, nameToNode: map<string, nat>, paralogNames: seq<string>)
    requires |lines| == 2 && |paralogNames| > 0 && paralogNames[0] == "" && "" !in nameToNode
    ensures ParseRecordAsWritten(lines, nameToNode, paralogNames) == None
  {
    assert EndsWith(Strip(lines[0]), paralogNames[0]);
    assert FirstSuffix(Strip(lines[0]), paralogNames, 0) == Some(0);
  }

  /**
   * A leading empty paralog name: the corrected step takes the whole name
   * line as the species, so the paragraph is read whenever that species is
   * known and the sequence line is over ACGT, e.g. name line "X", sequence
   * line "A" and name_to_node {"X": 0}.
   */
  lemma EmptyParalogKeepsRecord(lines: seq<string>, nameToNode: map<string, nat>, paralogNames: seq<string>)
    requires |lines| == 2 && |paralogNames| > 0 && paralogNames[0] == ""
    ensures ParseRecord(lines, nameToNode, paralogNames).Some? <==>
      Strip(lines[0]) in nameToNode && EncodeRow(Strip(lines[1])).Some?
    ensures ParseRecord(lines, nameToNode, paralogNames).Some? ==>
      ParseRecord(lines, nameToNode, paralogNames).value.node == nameToNode[Strip(lines[0])] &&
      ParseRecord(lines, nameToNode, paralogNames).value.variable == 0
  {
    var name := Strip(lines[0]);
    assert EndsWith(name, paralogNames[0]);
    assert FirstSuffix(name, paralogNames, 0) == Some(0);
    assert name[..|name| - 0] == name;
  }

  /** The paragraph parser for a given tree and paralog list. */
  function Parser(nameToNode: map<string, nat>, paralogNames: seq<string>): (parse: seq<string> -> Option<Record>)
    ensures forall lines :: parse(lines) == ParseRecord(lines, nameToNode, paralogNames)
  {
    lines => ParseRecord(lines, nameToNode, paralogNames)
  }

  /** The paragraph parser with parse_full_name as written. */
  function ParserAsWritten(nameToNode: map<string, nat>, paralogNames: seq<string>): (parse: seq<string> -> Option<Record>)
    ensures forall lines :: parse(lines) == ParseRecordAsWritten(lines, nameToNode, paralogNames)
  {
    lines => ParseRecordAsWritten(lines, nameToNode, paralogNames)
  }

  /**
   * The records of the paragraphs in turn, None as soon as one of them is
   * rejected.
   */
  function AllRecords(ps: seq<seq<string>>, parse: seq<string> -> Option<Record>): (r: Option<seq<Record>>)
    ensures r.Some? ==> |r.value| == |ps|
  {
    if |ps| == 0 then Some([])
    else
      match AllRecords(ps[..|ps| - 1], parse)
      case None => None
      case Some(done) =>
        match parse(ps[|ps| - 1])
        case None => None
        case Some(rec) => Some(done + [rec])
  }

  /** All paragraphs are accepted exactly when each is, and the records are theirs, in order. */
  lemma {:induction false} AllRecordsMeaning(ps: seq<seq<string>>, parse: seq<string> -> Option<Record>)
    ensures AllRecords(ps, parse).Some? <==> forall i :: 0 <= i < |ps| ==> parse(ps[i]).Some?
    ensures AllRecords(ps, parse).Some? ==> forall i :: 0 <= i < |ps| ==> AllRecords(ps, parse).value[i] == parse(ps[i]).value
  {
    if |ps| > 0 {
      var init := ps[..|ps| - 1];
      AllRecordsMeaning(init, parse);
      assert forall i :: 0 <= i < |init| ==> init[i] == ps[i];
    }
  }

  /** Two parsers that agree on every paragraph accept the same files with the same records. */
  lemma {:induction false} AllRecordsSameParse(ps: seq<seq<string>>, parse: seq<string> -> Option<Record>,
                                               parse': seq<string> -> Option<Record>)
    requires forall lines :: parse(lines) == parse'(lines)
    ensures AllRecords(ps, parse) == AllRecords(ps, parse')
  {
    if |ps| > 0 {
      var init := ps[..|ps| - 1];
      AllRecordsSameParse(init, parse, parse');
    }
  }

  /** With no empty paralog name, the file is read as the source's reader reads it. */
  lemma AlignmentAgrees(lines: seq<string>, nameToNode: map<string, nat>, paralogNames: seq<string>)
    requires forall k :: 0 <= k < |paralogNames| ==> paralogNames[k] != ""
    ensures AllRecords(Paragraphs(lines), Parser(nameToNode, paralogNames)) ==
            AllRecords(Paragraphs(lines), ParserAsWritten(nameToNode, paralogNames))
  {
    forall ls
      ensures Parser(nameToNode, paralogNames)(ls) == ParserAsWritten(nameToNode, paralogNames)(ls)
    {
      ParseRecordAgrees(ls, nameToNode, paralogNames);
    }
    AllRecordsSameParse(Paragraphs(lines), Parser(nameToNode, paralogNames), ParserAsWritten(nameToNode, paralogNames));
  }

  /** Once a prefix of the paragraphs is rejected, so is the whole file. */
  lemma {:induction false} AllRecordsPrefix(ps: seq<seq<string>>, k: nat, parse: seq<string> -> Option<Record>)
    requires k <= |ps| && AllRecords(ps[..k], parse).None?
    ensures AllRecords(ps, parse).None?
    decreases |ps| - k
  {
    if k < |ps| {
      assert ps[..k + 1][..k] == ps[..k];
      AllRecordsPrefix(ps, k + 1, parse);
    } else {
      assert ps[..k] == ps;
    }
  }

  /** The result of get_alignment_info: observed nodes, their paralog indices, and the columns. */
  datatype AlignmentData = AlignmentData(nodes: seq<nat>, variables: seq<nat>, columns: seq<seq<nat>>)

  /**
   * The loop of get_alignment_info over the paragraphs: each accepted
   * paragraph appends its node, its paralog index and its row, and the
   * first rejected one ends the loop with None.
   */
  method CollectRecords(ps: seq<seq<string>>, parse: seq<string> -> Option<Record>)
    returns (r: Option<(seq<nat>, seq<nat>, seq<seq<nat>>)>)
    ensures r.Some? <==> AllRecords(ps, parse).Some?
    ensures r.Some? ==> var recs := AllRecords(ps, parse).value;
      r.value.0 == seq(|recs|, i requires 0 <= i < |recs| => recs[i].node) &&
      r.value.1 == seq(|recs|, i requires 0 <= i < |recs| => recs[i].variable) &&
      r.value.2 == seq(|recs|, i requires 0 <= i < |recs| => recs[i].row)
  {
    ghost var done: seq<Record> := [];
    var nodes: seq<nat> := [];
    var variables: seq<nat> := [];
    var rows: seq<seq<nat>> := [];
    for i := 0 to |ps|
      invariant AllRecords(ps[..i], parse) == Some(done)
      invariant |done| == i && |nodes| == i && |variables| == i && |rows| == i
      invariant forall l :: 0 <= l < i ==> nodes[l] == done[l].node && variables[l] == done[l].variable && rows[l] == done[l].row
    {
      assert ps[..i + 1][..i] == ps[..i];
      var rec := parse(ps[i]);
      if rec.None? {
        assert AllRecords(ps[..i + 1], parse).None?;
        AllRecordsPrefix(ps, i + 1, parse);
        return None;
      }
      done := done + [rec.value];
      nodes := nodes + [rec.value.node];
      variables := variables + [rec.value.variable];
      rows := rows + [rec.value.row];
    }
    assert ps[..|ps|] == ps;
    r := Some((nodes, variables, rows));
  }

  /**
   * get_alignment_info on a file given as its lines: None when some
   * paragraph is rejected, otherwise one (node, variable) per paragraph in
   * file order and the columns zip(*rows) of the rows of states.
   */
  method GetAlignmentInfo(lines: seq<string>, nameToNode: map<string, nat>, paralogNames: seq<string>)
    returns (r: Option<AlignmentData>)
    ensures r.Some? <==> AllRecords(Paragraphs(lines), Parser(nameToNode, paralogNames)).Some?
    ensures r.Some? ==> var recs := AllRecords(Paragraphs(lines), Parser(nameToNode, paralogNames)).value;
      r.value.nodes == seq(|recs|, i requires 0 <= i < |recs| => recs[i].node) &&
      r.value.variables == seq(|recs|, i requires 0 <= i < |recs| => recs[i].variable) &&
      r.value.columns == Zip(seq(|recs|, i requires 0 <= i < |recs| => recs[i].row))
  {
    var ps := GenParagraphs(lines);
    var collected := CollectRecords(ps, Parser(nameToNode, paralogNames));
    if collected.None? {
      return None;
    }
    var (nodes, variables, rows) := collected.value;
    r := Some(AlignmentData(nodes, variables, Zip(rows)));
  }
}
