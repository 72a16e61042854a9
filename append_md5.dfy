/**
  * The md5 annotation script: every line of an md5sum listing is matched
  * against `([A-Za-z0-9]+)\s+(.*)` and stored as filename -> sum (a later
  * line for the same file wins); then every entry of the SRTM3 dataset gains
  * an `md5` field looked up by its `zip` field, and a zip without a sum
  * raises before anything is written.
  */
module AppendMd5 {
  import opened Wrappers
  import opened Text

  /** A JSON object of the dataset file: field name to string value. */
  type Entry = map<string, string>

  datatype SumLine = SumLine(md5: string, filename: string)

  datatype Md5Error =
    | NoMatch(line: string)   // `re.match` returned None and `m.group(1)` raised AttributeError; the line is the model's payload
    | MissingZip(key: string) // the entry has no `zip` field and the lookup raised KeyError; the key is the model's payload
    | NoMd5Sum(zip: string)   // "no md5 sum for <zip>"

  predicate IsAsciiAlnum(c: char) { 'A' <= c <= 'Z' || 'a' <= c <= 'z' || '0' <= c <= '9' }

  /** `\s` of a `str` pattern: the characters `str.isspace()` accepts. */
  predicate IsSpace(c: char)
  {
    var n := c as int;
    n == 32 || 9 <= n <= 13 || 28 <= n <= 31 || n == 0x85 || n == 0xA0 || n == 0x1680
    || 0x2000 <= n <= 0x200A || n == 0x2028 || n == 0x2029 || n == 0x202F || n == 0x205F || n == 0x3000
  }

  /** `.` without DOTALL: anything but a newline. */
  predicate NotNewline(c: char) { c != '\n' }

  // ---------------------------------------------------------------------------
  // Parsing one line

  /**
    * `re.match('([A-Za-z0-9]+)\s+(.*)', line)`: the sum is the longest
    * leading alphanumeric run, at least one whitespace character must
    * follow it (all of them are consumed), and the filename is what comes
    * next up to the first newline.
    */
  function ParseSumLine(line: string): (r: Result<SumLine, Md5Error>)
    ensures r.Success? ==> 1 <= |r.value.md5| && (forall i :: 0 <= i < |r.value.md5| ==> IsAsciiAlnum(r.value.md5[i]))
    ensures r.Success? ==> '\n' !in r.value.filename
    ensures r.Failure? ==> r.error == NoMatch(line)
  {
    var a := Span(line, IsAsciiAlnum);
    if a == 0 then Failure(NoMatch(line))
    else
      var w := Span(line[a..], IsSpace);
      if w == 0 then Failure(NoMatch(line))
      else
        var tail := line[a + w..];
        var n := Span(tail, NotNewline);
        Success(SumLine(line[..a], tail[..n]))
  }

  /** The pattern matches at the start of `line`: an alphanumeric run followed by a whitespace character. */
  predicate RegexMatches(line: string)
  {
    exists k :: 1 <= k < |line| && (forall i :: 0 <= i < k ==> IsAsciiAlnum(line[i])) && IsSpace(line[k])
  }

  /** The parse fails exactly on the lines the pattern does not match. */
  lemma ParseSucceedsIffMatch(line: string)
    ensures ParseSumLine(line).Success? <==> RegexMatches(line)
  {
    var a := Span(line, IsAsciiAlnum);
    if ParseSumLine(line).Success? {
      assert Span(line[a..], IsSpace) > 0;
      assert IsSpace(line[a..][0]);
      assert 1 <= a < |line| && IsSpace(line[a]);
    }
    if RegexMatches(line) {
      var k :| 1 <= k < |line| && (forall i :: 0 <= i < k ==> IsAsciiAlnum(line[i])) && IsSpace(line[k]);
      assert a == k;
      assert line[a..][0] == line[k];
    }
  }

  /** The parse of a line whose three runs have the given lengths. */
  lemma ParseByRuns(line: string, a: nat, w: nat, n: nat)
    requires a >= 1 && a == Span(line, IsAsciiAlnum)
    requires w >= 1 && w == Span(line[a..], IsSpace)
    requires n == Span(line[a + w..], NotNewline)
    ensures ParseSumLine(line) == Success(SumLine(line[..a], line[a + w..][..n]))
  {
  }

  lemma AlnumRun(md5: string, tail: string)
    requires forall i :: 0 <= i < |md5| ==> IsAsciiAlnum(md5[i])
    requires |tail| >= 1 && IsSpace(tail[0])
    ensures Span(md5 + tail, IsAsciiAlnum) == |md5|
  {
    SpanPrefix(md5, tail, IsAsciiAlnum);
  }

  lemma SpaceRun(sep: string, tail: string)
    requires forall i :: 0 <= i < |sep| ==> IsSpace(sep[i])
    requires |tail| >= 1 && !IsSpace(tail[0])
    ensures Span(sep + tail, IsSpace) == |sep|
  {
    SpanPrefix(sep, tail, IsSpace);
  }

  lemma NameRun(name: string, rest: string)
    requires '\n' !in name
    requires rest == [] || rest[0] == '\n'
    ensures Span(name + rest, NotNewline) == |name|
  {
    assert forall i :: 0 <= i < |name| ==> NotNewline(name[i]);
    SpanPrefix(name, rest, NotNewline);
  }

  /** A formatted listing line reads back as the sum and file name it was made of. */
  lemma ParseFormatted(md5: string, sep: string, name: string, rest: string)
    requires |md5| >= 1 && forall i :: 0 <= i < |md5| ==> IsAsciiAlnum(md5[i])
    requires |sep| >= 1 && forall i :: 0 <= i < |sep| ==> IsSpace(sep[i])
    requires |name| >= 1 && !IsSpace(name[0]) && '\n' !in name
    requires rest == [] || rest[0] == '\n'
    ensures ParseSumLine(md5 + sep + name + rest) == Success(SumLine(md5, name))
  {
    var line := md5 + sep + name + rest;
    var a, w := |md5|, |sep|;
    var afterSep := name + rest;
    var afterSum := sep + afterSep;
    assert line == md5 + afterSum;
    assert line[..a] == md5 && line[a..] == afterSum;
    assert afterSum[w..] == afterSep && line[a + w..] == afterSep;
    assert afterSep[..|name|] == name;
    assert afterSep[0] == name[0];
    AlnumRun(md5, afterSum);
    SpaceRun(sep, afterSep);
    NameRun(name, rest);
    ParseByRuns(line, a, w, |name|);
  }

  /** Two spaces between the sum and the name, as `md5sum` writes them. */
  lemma ParseExample()
    ensures ParseSumLine("0a1b  N00E010.hgt.zip\n") == Success(SumLine("0a1b", "N00E010.hgt.zip"))
  {
    assert "0a1b  N00E010.hgt.zip\n" == "0a1b" + "  " + "N00E010.hgt.zip" + "\n";
    ParseFormatted("0a1b", "  ", "N00E010.hgt.zip", "\n");
  }

  // ---------------------------------------------------------------------------
  // The `allsums` table

  /** The table the reading loop builds, or the failure of its first unmatched line. */
  function SumsOf(lines: seq<string>): Result<map<string, string>, Md5Error>
  {
    if lines == [] then Success(map[])
    else
      match SumsOf(lines[..|lines| - 1])
      case Failure(e) => Failure(e)
      case Success(sums) =>
        match ParseSumLine(lines[|lines| - 1])
        case Failure(e) => Failure(e)
        case Success(l) => Success(sums[l.filename := l.md5])
  }

  /** Once a prefix of the listing fails, the whole listing fails with the same error. */
  lemma {:induction false} SumsOfFailurePersists(lines: seq<string>, j: nat)
    requires j <= |lines| && SumsOf(lines[..j]).Failure?
    ensures SumsOf(lines) == SumsOf(lines[..j])
    decreases |lines| - j
  {
    if j < |lines| {
      var init := lines[..|lines| - 1];
      assert init[..j] == lines[..j];
      SumsOfFailurePersists(init, j);
    } else {
      assert lines[..j] == lines;
    }
  }

  /** The listing is refused exactly when one of its lines does not match. */
  lemma {:induction false} SumsOfFailsIff(lines: seq<string>)
    ensures SumsOf(lines).Failure? <==> exists j :: 0 <= j < |lines| && ParseSumLine(lines[j]).Failure?
  {
    if lines != [] {
      var init := lines[..|lines| - 1];
      SumsOfFailsIff(init);
      assert forall j :: 0 <= j < |init| ==> init[j] == lines[j];
    }
  }

  /**
    * The sum recorded for a file is the one on the last line that names it:
    * a later line for the same file overrides an earlier one.
    */
  lemma {:induction false} LaterLineWins(lines: seq<string>, j: nat)
    requires SumsOf(lines).Success? && j < |lines| && ParseSumLine(lines[j]).Success?
    requires forall k :: j < k < |lines| ==>
               (ParseSumLine(lines[k]).Success? && ParseSumLine(lines[k]).value.filename != ParseSumLine(lines[j]).value.filename)
    ensures ParseSumLine(lines[j]).value.filename in SumsOf(lines).value
    ensures SumsOf(lines).value[ParseSumLine(lines[j]).value.filename] == ParseSumLine(lines[j]).value.md5
  {
    var n := |lines|;
    var init := lines[..n - 1];
    var name := ParseSumLine(lines[j]).value.filename;
    var last := ParseSumLine(lines[n - 1]);
    SumsOfSnoc(lines);
    if j < n - 1 {
      assert init[j] == lines[j];
      forall k | j < k < |init|
        ensures ParseSumLine(init[k]).Success?
        ensures ParseSumLine(init[k]).value.filename != ParseSumLine(init[j]).value.filename
      {
        assert init[k] == lines[k];
      }
      LaterLineWins(init, j);
      assert last.value.filename != name;
    }
  }

  /** A successful listing is its prefix's table updated by its last line. */
  /** A name is in the sums table exactly when some line of the listing gives it. */
  lemma {:induction false} SumsOfKeys(lines: seq<string>)
    requires SumsOf(lines).Success?
    ensures forall f :: f in SumsOf(lines).value <==>
      exists j :: 0 <= j < |lines| && ParseSumLine(lines[j]).Success? && ParseSumLine(lines[j]).value.filename == f
  {
    if lines != [] {
      var n := |lines|;
      var init := lines[..n - 1];
      SumsOfSnoc(lines);
      SumsOfKeys(init);
      var last := ParseSumLine(lines[n - 1]).value;
      forall f | f in SumsOf(lines).value
        ensures exists j :: 0 <= j < n && ParseSumLine(lines[j]).Success? && ParseSumLine(lines[j]).value.filename == f
      {
        if f != last.filename {
          var j :| 0 <= j < |init| && ParseSumLine(init[j]).Success? && ParseSumLine(init[j]).value.filename == f;
          assert init[j] == lines[j];
        }
      }
      forall j | 0 <= j < n && ParseSumLine(lines[j]).Success?
        ensures ParseSumLine(lines[j]).value.filename in SumsOf(lines).value
      {
        if j < n - 1 {
          assert init[j] == lines[j];
        }
      }
    }
  }

  lemma SumsOfSnoc(lines: seq<string>)
    requires lines != [] && SumsOf(lines).Success?
    ensures SumsOf(lines[..|lines| - 1]).Success? && ParseSumLine(lines[|lines| - 1]).Success?
    ensures var last := ParseSumLine(lines[|lines| - 1]).value;
      SumsOf(lines).value == SumsOf(lines[..|lines| - 1]).value[last.filename := last.md5]
  {
  }

  /** The reading loop: one parse per line, each stored under its file name. */
  method CollectSums(lines: seq<string>) returns (r: Result<map<string, string>, Md5Error>)
    ensures r == SumsOf(lines)
  {
    var allsums: map<string, string> := map[];
    var i := 0;
    while i < |lines|
      invariant 0 <= i <= |lines|
      invariant SumsOf(lines[..i]) == Success(allsums)
    {
      var m := ParseSumLine(lines[i]);
      assert lines[..i + 1][..i] == lines[..i];
      if m.Failure? {
        SumsOfFailurePersists(lines, i + 1);
        return Failure(m.error);
      }
      allsums := allsums[m.value.filename := m.value.md5];
      i := i + 1;
    }
    assert lines[..i] == lines;
    r := Success(allsums);
  }

  // ---------------------------------------------------------------------------
  // Joining the sums onto the dataset

  /** `entry` with its `md5` field set from the table. */
  function WithSum(entry: Entry, allsums: map<string, string>): Entry
    requires "zip" in entry && entry["zip"] in allsums
  {
    entry["md5" := allsums[entry["zip"]]]
  }

  /** A key whose entry cannot be given a sum. */
  predicate Unsummed(entries: map<string, Entry>, allsums: map<string, string>, key: string)
    requires key in entries
  {
    "zip" !in entries[key] || entries[key]["zip"] !in allsums
  }

  /** The dataset after the join loop has visited `order`, or the error of the first entry it could not annotate. */
  function Join(entries: map<string, Entry>, order: seq<string>, allsums: map<string, string>): Result<map<string, Entry>, Md5Error>
    requires forall i :: 0 <= i < |order| ==> order[i] in entries
  {
    if order == [] then Success(entries)
    else
      match Join(entries, order[..|order| - 1], allsums)
      case Failure(e) => Failure(e)
      case Success(current) =>
        var key := order[|order| - 1];
        if key !in current then Success(current)
        else if "zip" !in current[key] then Failure(MissingZip(key))
        else if current[key]["zip"] !in allsums then Failure(NoMd5Sum(current[key]["zip"]))
        else Success(current[key := WithSum(current[key], allsums)])
  }

  /**
    * A successful join keeps the dataset's keys; every visited entry gains
    * exactly the `md5` of its zip and keeps its other fields; the rest are untouched.
    */
  lemma {:induction false} JoinAnnotates(entries: map<string, Entry>, order: seq<string>, allsums: map<string, string>)
    requires forall i :: 0 <= i < |order| ==> order[i] in entries
    requires Join(entries, order, allsums).Success?
    ensures Join(entries, order, allsums).value.Keys == entries.Keys
    ensures forall key :: key in entries && key in order ==>
              !Unsummed(entries, allsums, key) && Join(entries, order, allsums).value[key] == WithSum(entries[key], allsums)
    ensures forall key :: key in entries && key !in order ==> Join(entries, order, allsums).value[key] == entries[key]
  {
    if order != [] {
      var init := order[..|order| - 1];
      JoinAnnotates(entries, init, allsums);
      var key := order[|order| - 1];
      forall k | k in order
        ensures k == key || k in init
      {
        var i :| 0 <= i < |order| && order[i] == k;
        if i < |init| {
          assert init[i] == k;
        }
      }
      if key in init {
        var current := Join(entries, init, allsums).value;
        assert current[key]["zip"] == entries[key]["zip"];
      }
    }
  }

  /** The join fails exactly when some entry it visits has no zip or no sum for its zip. */
  lemma {:induction false} JoinFailsIff(entries: map<string, Entry>, order: seq<string>, allsums: map<string, string>)
    requires forall i :: 0 <= i < |order| ==> order[i] in entries
    ensures Join(entries, order, allsums).Failure? <==> exists i :: 0 <= i < |order| && Unsummed(entries, allsums, order[i])
  {
    if order != [] {
      var init := order[..|order| - 1];
      var key := order[|order| - 1];
      JoinFailsIff(entries, init, allsums);
      if exists i :: 0 <= i < |init| && Unsummed(entries, allsums, init[i]) {
        var i :| 0 <= i < |init| && Unsummed(entries, allsums, init[i]);
        assert order[i] == init[i];
      } else if Join(entries, init, allsums).Success? {
        JoinAnnotates(entries, init, allsums);
        var current := Join(entries, init, allsums).value;
        if key in init {
          assert current[key]["zip"] == entries[key]["zip"];
        } else {
          assert current[key] == entries[key];
        }
        assert forall i :: 0 <= i < |init| ==> init[i] == order[i];
      }
    }
  }

  /** The dataset file as loaded: entries by key, visited in the file's key order. */
  class Dataset {
    var order: seq<string>
    var entries: map<string, Entry>

    ghost predicate Valid()
      reads this
    {
      (forall i :: 0 <= i < |order| ==> order[i] in entries)
      && (forall key :: key in entries ==> key in order)
    }

    constructor (order: seq<string>, entries: map<string, Entry>)
      requires (forall i :: 0 <= i < |order| ==> order[i] in entries) && (forall key :: key in entries ==> key in order)
      ensures Valid() && this.order == order && this.entries == entries
    {
      this.order := order;
      this.entries := entries;
    }

    /**
      * The join loop: for each key in order, raise if its zip has no sum,
      * otherwise set the entry's `md5` in place.
      */
    method AppendSums(allsums: map<string, string>) returns (r: Outcome<Md5Error>)
      requires Valid()
      modifies this
      ensures Valid() && order == old(order)
      ensures r.Pass? ==> Join(old(entries), order, allsums) == Success(entries)
      ensures r.Fail? ==> Join(old(entries), order, allsums) == Failure(r.error)
      ensures r.Fail? ==> exists i :: 0 <= i < |order| && Join(old(entries), order[..i], allsums) == Success(entries)
    {
      var i := 0;
      assert order[..0] == [];
      while i < |order|
        invariant 0 <= i <= |order|
        invariant entries.Keys == old(entries).Keys
        invariant Valid() && order == old(order)
        invariant Join(old(entries), order[..i], allsums) == Success(entries)
      {
        var key := order[i];
        assert order[..i + 1][..i] == order[..i];
        if "zip" !in entries[key] {
          JoinFailurePersists(old(entries), order, allsums, i + 1);
          return Fail(MissingZip(key));
        }
        var zip := entries[key]["zip"];
        if zip !in allsums {
          JoinFailurePersists(old(entries), order, allsums, i + 1);
          return Fail(NoMd5Sum(zip));
        }
        entries := entries[key := entries[key]["md5" := allsums[zip]]];
        i := i + 1;
      }
      assert order[..i] == order;
      r := Pass;
    }
  }

  /** Once the join fails on a prefix of the keys, it fails on all of them with the same error. */
  lemma {:induction false} JoinFailurePersists(entries: map<string, Entry>, order: seq<string>, allsums: map<string, string>, j: nat)
    requires forall i :: 0 <= i < |order| ==> order[i] in entries
    requires j <= |order| && Join(entries, order[..j], allsums).Failure?
    ensures Join(entries, order, allsums) == Join(entries, order[..j], allsums)
    decreases |order| - j
  {
    if j < |order| {
      var init := order[..|order| - 1];
      assert init[..j] == order[..j];
      JoinFailurePersists(entries, init, allsums, j);
    } else {
      assert order[..j] == order;
    }
  }

  /**
    * The whole script: the listing is read first, then joined onto the
    * dataset; the output file is written only on success.
    */
  function AppendMd5(lines: seq<string>, entries: map<string, Entry>, order: seq<string>): Result<map<string, Entry>, Md5Error>
    requires forall i :: 0 <= i < |order| ==> order[i] in entries
  {
    match SumsOf(lines)
    case Failure(e) => Failure(e)
    case Success(allsums) => Join(entries, order, allsums)
  }

  /** A dataset entry whose zip has no sum in the listing makes the script raise, so nothing is written. */
  lemma MissingSumRaises(lines: seq<string>, entries: map<string, Entry>, order: seq<string>, i: nat)
    requires forall k :: 0 <= k < |order| ==> order[k] in entries
    requires SumsOf(lines).Success? && i < |order| && Unsummed(entries, SumsOf(lines).value, order[i])
    ensures AppendMd5(lines, entries, order).Failure?
  {
    JoinFailsIff(entries, order, SumsOf(lines).value);
  }

  /**
    * The same, stated on the listing itself: an entry whose zip no line of the
    * listing names makes the script raise, so nothing is written.
    */
  lemma NoSumLineRaises(lines: seq<string>, entries: map<string, Entry>, order: seq<string>, i: nat)
    requires forall k :: 0 <= k < |order| ==> order[k] in entries
    requires SumsOf(lines).Success? && i < |order| && "zip" in entries[order[i]]
    requires forall j :: 0 <= j < |lines| && ParseSumLine(lines[j]).Success? ==>
               ParseSumLine(lines[j]).value.filename != entries[order[i]]["zip"]
    ensures AppendMd5(lines, entries, order).Failure?
  {
    SumsOfKeys(lines);
    MissingSumRaises(lines, entries, order, i);
  }
}
