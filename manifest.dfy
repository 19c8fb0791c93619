/**
 * WayfindingManifest: the two-column "Data, URL" table that maps the name of
 * each exported artifact to the address it can be downloaded from. Reading
 * takes the manifest line by line; writing renders the table back to text.
 */
module Manifest {
  import opened Wrappers
  import opened JavaStrings

  /** The header line the writer emits and the reader skips. */
  const Header: string := "Data, URL"

  /** The line separator AbstractCsvFile.NL, taken to be a line feed. */
  const NL: string := "\n"

  /** The marker importManifest looks for in a link to the manifest. */
  const IdMarker: string := "id="

  /** The fields readStream sees in a line: the line split on commas. */
  function Fields(line: string): seq<string>
  {
    Split(line, ",")
  }

  /** The line is stored when read after the header, under key k. */
  predicate Names(line: string, k: string)
  {
    |Fields(line)| >= 2 && Fields(line)[0] == k
  }

  /**
   * One line after the header: field 0 is mapped to field 1 and further
   * fields are ignored; a line with fewer than two fields makes the indexing
   * throw inside the try block, so it is skipped.
   */
  function ApplyLine(urls: map<string, string>, line: string): (r: map<string, string>)
    ensures urls.Keys <= r.Keys
    ensures forall k :: k in r && !Names(line, k) ==> k in urls && r[k] == urls[k]
    ensures forall k :: Names(line, k) ==> k in r && r[k] == Fields(line)[1]
  {
    var f := Fields(line);
    if |f| >= 2 then urls[f[0] := f[1]] else urls
  }

  /** The lines applied one after another, in order. */
  function ApplyLines(urls: map<string, string>, lines: seq<string>): (r: map<string, string>)
    ensures urls.Keys <= r.Keys
  {
    if lines == [] then urls
    else ApplyLine(ApplyLines(urls, lines[..|lines| - 1]), lines[|lines| - 1])
  }

  /** The table readStream leaves in urls: the first line is the header and is not applied. */
  function ReadInto(urls: map<string, string>, lines: seq<string>): (r: map<string, string>)
    ensures urls.Keys <= r.Keys
    ensures |lines| <= 1 ==> r == urls
  {
    if lines == [] then urls else ApplyLines(urls, lines[1..])
  }

  /**
   * The file id importManifest downloads: the text after the first "id=", up
   * to any second one, when the link holds the marker, and the argument as it
   * is otherwise. None when nothing non-empty follows the marker, where
   * split("id=")[1] throws ArrayIndexOutOfBoundsException.
   */
  function ManifestId(url: string): (r: Option<string>)
    ensures !Contains(url, IdMarker) ==> r == Some(url)
    ensures Contains(url, IdMarker) && r.Some? ==> |Split(url, IdMarker)| >= 2 && r.value == Split(url, IdMarker)[1]
    ensures Contains(url, IdMarker) && r.None? ==> |Split(url, IdMarker)| < 2
  {
    if Contains(url, IdMarker) then
      var parts := Split(url, IdMarker);
      if |parts| >= 2 then Some(parts[1]) else None
    else Some(url)
  }

  /** One written entry. */
  function EntryLine(k: string, v: string): string
  {
    k + ", " + v
  }

  /** order lists every key of urls exactly once. */
  ghost predicate IsListing(order: seq<string>, urls: map<string, string>)
  {
    && (forall i, j :: 0 <= i < j < |order| ==> order[i] != order[j])
    && (forall k :: k in order <==> k in urls)
  }

  /** The entry lines for the keys in the given order. */
  function EntryLines(urls: map<string, string>, order: seq<string>): seq<string>
    requires forall k :: k in order ==> k in urls
  {
    seq(|order|, i requires 0 <= i < |order| => EntryLine(order[i], urls[order[i]]))
  }

  /** The text getContentsToWrite produces when the map yields its entries in the given order. */
  function Render(urls: map<string, string>, order: seq<string>): (r: string)
    requires forall k :: k in order ==> k in urls
    ensures |Header| <= |r| && r[..|Header|] == Header
    ensures order == [] ==> r == Header
  {
    var lines := [Header] + EntryLines(urls, order);
    assert lines[0] == Header;
    Join(lines, NL)
  }

  /** What reading a rendered table gives back: every value behind the space the writer put after the comma. */
  function SpacedValues(urls: map<string, string>, keys: seq<string>): map<string, string>
    requires forall k :: k in keys ==> k in urls
  {
    map k | k in keys :: " " + urls[k]
  }

  class WayfindingManifest {
    var urls: map<string, string>

    constructor ()
      ensures urls == map[]
    {
      urls := map[];
    }

    /** containsUrlFor: whether the table has an entry for the title. */
    function ContainsUrlFor(title: string): (r: bool)
      reads this
      ensures r <==> title in urls.Keys
    {
      title in urls
    }

    /**
     * readStream over the lines of the stream: the first line is skipped as
     * the header, every later line with at least two fields sets
     * urls[field 0] to field 1, and a malformed line is skipped.
     */
    method ReadStream(lines: seq<string>)
      modifies this
      ensures urls == ReadInto(old(urls), lines)
    {
      var firstLine := true;
      var i := 0;
      while i < |lines|
        invariant 0 <= i <= |lines|
        invariant firstLine <==> i == 0
        invariant i == 0 ==> urls == old(urls)
        invariant i > 0 ==> urls == ApplyLines(old(urls), lines[1..i])
      {
        var line := Fields(lines[i]);
        if !firstLine && |line| >= 2 {
          urls := urls[line[0] := line[1]];
        }
        assert i > 0 ==> lines[1..i + 1][..i - 1] == lines[1..i];
        firstLine := false;
        i := i + 1;
      }
      assert i > 0 ==> lines[1..i] == lines[1..];
    }

    /**
     * getContentsToWrite: the header, then for each entry of the map, in the
     * map's own unspecified order, a newline and "key, value".
     */
    method ContentsToWrite() returns (s: string, ghost order: seq<string>)
      ensures IsListing(order, urls)
      ensures s == Render(urls, order)
    {
      s := Header;
      order := [];
      var rest := urls.Keys;
      while rest != {}
        invariant forall k :: k in rest <==> k in urls && k !in order
        invariant forall i, j :: 0 <= i < j < |order| ==> order[i] != order[j]
        invariant forall k :: k in order ==> k in urls
        invariant s == Render(urls, order)
        decreases rest
      {
        var k :| k in rest;
        var line := EntryLine(k, urls[k]);
        JoinSnoc([Header] + EntryLines(urls, order), line, NL);
        assert [Header] + EntryLines(urls, order + [k]) == [Header] + EntryLines(urls, order) + [line];
        s := s + NL + k + ", " + urls[k];
        order := order + [k];
        rest := rest - {k};
      }
    }
  }

  /** Static importManifest: a fresh manifest filled from what the extracted id downloads; None when the extraction throws. */
  method ImportManifest(url: string, download: string -> seq<string>) returns (r: Option<WayfindingManifest>)
    ensures r.Some? <==> ManifestId(url).Some?
    ensures r.Some? ==> fresh(r.value) && r.value.urls == ReadInto(map[], download(ManifestId(url).value))
  {
    var id := ManifestId(url);
    if id.None? {
      return None;
    }
    var m := new WayfindingManifest();
    m.ReadStream(download(id.value));
    return Some(m);
  }

  // Lemmas about reading.

  lemma {:induction false} ApplyLinesAppend(urls: map<string, string>, a: seq<string>, b: seq<string>)
    ensures ApplyLines(urls, a + b) == ApplyLines(ApplyLines(urls, a), b)
    decreases |b|
  {
    if b == [] {
      assert a + b == a;
    } else {
      assert (a + b)[..|a + b| - 1] == a + b[..|b| - 1];
      ApplyLinesAppend(urls, a, b[..|b| - 1]);
    }
  }

  /** A malformed line changes nothing, and the lines after it are still applied. */
  lemma SkipsMalformed(urls: map<string, string>, a: seq<string>, x: string, b: seq<string>)
    requires |Fields(x)| < 2
    ensures ApplyLines(urls, a + [x] + b) == ApplyLines(urls, a + b)
  {
    ApplyLinesAppend(urls, a + [x], b);
    ApplyLinesAppend(urls, a, b);
    assert (a + [x])[..|a + [x]| - 1] == a;
  }

  /** A key is present after the lines exactly when it was before or some line names it; keys no line names keep their value. */
  lemma {:induction false} ApplyLinesKeys(urls: map<string, string>, lines: seq<string>, k: string)
    ensures k in ApplyLines(urls, lines) <==> k in urls || exists i :: 0 <= i < |lines| && Names(lines[i], k)
    ensures (forall i :: 0 <= i < |lines| ==> !Names(lines[i], k)) && k in urls ==> ApplyLines(urls, lines)[k] == urls[k]
    decreases |lines|
  {
    if lines != [] {
      var init := lines[..|lines| - 1];
      ApplyLinesKeys(urls, init, k);
      assert forall i :: 0 <= i < |init| ==> init[i] == lines[i];
      if exists i :: 0 <= i < |init| && Names(init[i], k) {
        var i :| 0 <= i < |init| && Names(init[i], k);
        assert Names(lines[i], k);
      }
    }
  }

  /** The last line naming a key decides its value: a later occurrence overwrites an earlier one. */
  lemma {:induction false} ApplyLinesLastWins(urls: map<string, string>, lines: seq<string>, k: string, i: nat)
    requires i < |lines| && Names(lines[i], k)
    requires forall j :: i < j < |lines| ==> !Names(lines[j], k)
    ensures k in ApplyLines(urls, lines) && ApplyLines(urls, lines)[k] == Fields(lines[i])[1]
    decreases |lines|
  {
    var init := lines[..|lines| - 1];
    if i < |lines| - 1 {
      assert init[i] == lines[i];
      ApplyLinesLastWins(urls, init, k, i);
    }
  }

  /** The header line is never stored: a key only it names stays absent. */
  lemma HeaderNotStored(urls: map<string, string>, lines: seq<string>, k: string)
    requires lines != [] && k !in urls
    requires forall i :: 1 <= i < |lines| ==> !Names(lines[i], k)
    ensures k !in ReadInto(urls, lines)
  {
    forall i | 0 <= i < |lines[1..]|
      ensures !Names(lines[1..][i], k)
    {
      assert lines[1..][i] == lines[i + 1];
    }
    ApplyLinesKeys(urls, lines[1..], k);
  }

  /** After reading, ContainsUrlFor(t) holds exactly when t was present or a line after the header names it. */
  lemma UrlPresentAfterRead(m: WayfindingManifest, lines: seq<string>, t: string, before: map<string, string>)
    requires m.urls == ReadInto(before, lines)
    ensures m.ContainsUrlFor(t) <==> t in before || exists i :: 1 <= i < |lines| && Names(lines[i], t)
  {
    if lines != [] {
      ApplyLinesKeys(before, lines[1..], t);
      if exists i :: 0 <= i < |lines[1..]| && Names(lines[1..][i], t) {
        var i :| 0 <= i < |lines[1..]| && Names(lines[1..][i], t);
        assert lines[1..][i] == lines[i + 1];
      }
      if exists i :: 1 <= i < |lines| && Names(lines[i], t) {
        var i :| 1 <= i < |lines| && Names(lines[i], t);
        assert lines[1..][i - 1] == lines[i];
      }
    }
  }

  // Lemmas about the id extraction.

  /** The id is the text between the first "id=" and the next one (or the end), when that text is not empty. */
  lemma ManifestIdSegment(pre: string, seg: string, post: string)
    requires !Contains(pre, IdMarker) && !Contains(seg, IdMarker) && seg != ""
    requires post == "" || (|post| >= 3 && post[..3] == IdMarker)
    ensures ManifestId(pre + IdMarker + seg + post) == Some(seg)
  {
    var url := pre + IdMarker + seg + post;
    assert url == pre + IdMarker + (seg + post);
    MarkerAfterFreeText(pre, seg + post);
    PiecesAtFirstMatch(url, IdMarker, |pre|);
    assert url[..|pre|] == pre && url[|pre| + 3..] == seg + post;
    var tail := Pieces(seg + post, IdMarker);
    if post == "" {
      assert seg + post == seg;
      PiecesNoMatch(seg, IdMarker);
    } else {
      var rest := post[3..];
      assert seg + post == seg + IdMarker + rest;
      MarkerAfterFreeText(seg, rest);
      PiecesAtFirstMatch(seg + post, IdMarker, |seg|);
      assert (seg + post)[..|seg|] == seg;
    }
    assert tail[0] == seg;
    var p := Pieces(url, IdMarker);
    assert p[1] == seg;
    assert MatchAt(url, IdMarker, |pre|);
  }

  /** A link whose only "id=" ends it makes importManifest throw. */
  lemma ManifestIdEmptyAfterMarker(pre: string)
    requires !Contains(pre, IdMarker)
    ensures ManifestId(pre + IdMarker) == None
  {
    var url := pre + IdMarker;
    assert url == pre + IdMarker + "";
    MarkerAfterFreeText(pre, "");
    PiecesAtFirstMatch(url, IdMarker, |pre|);
    assert url[..|pre|] == pre && url[|pre| + 3..] == "";
    assert Pieces("", IdMarker) == [""];
    assert MatchAt(url, IdMarker, |pre|);
  }

  /** Two markers in a row give the empty id: split keeps the empty piece between them when text follows. */
  lemma ManifestIdEmptySegment(pre: string, rest: string)
    requires !Contains(pre, IdMarker) && !Contains(rest, IdMarker) && rest != ""
    ensures ManifestId(pre + IdMarker + IdMarker + rest) == Some("")
  {
    var url := pre + IdMarker + IdMarker + rest;
    assert url == pre + IdMarker + (IdMarker + rest);
    MarkerAfterFreeText(pre, IdMarker + rest);
    PiecesAtFirstMatch(url, IdMarker, |pre|);
    assert url[..|pre|] == pre && url[|pre| + 3..] == IdMarker + rest;
    assert IdMarker + rest == "" + IdMarker + rest;
    MarkerAfterFreeText("", rest);
    PiecesAtFirstMatch(IdMarker + rest, IdMarker, 0);
    assert (IdMarker + rest)[3..] == rest;
    PiecesNoMatch(rest, IdMarker);
    var p := Pieces(url, IdMarker);
    assert p == [pre, "", rest];
    assert MatchAt(url, IdMarker, |pre|);
  }

  // Lemmas about writing and reading back.

  lemma {:induction false} ListingLength(order: seq<string>, keys: set<string>)
    requires forall i, j :: 0 <= i < j < |order| ==> order[i] != order[j]
    requires forall k :: k in order <==> k in keys
    ensures |order| == |keys|
    decreases |order|
  {
    if order != [] {
      var last := order[|order| - 1];
      var init := order[..|order| - 1];
      forall k
        ensures k in init <==> k in keys - {last}
      {
        if k in init {
          var i :| 0 <= i < |init| && init[i] == k;
          assert order[i] == k;
        }
        if k in order && k != last {
          var i :| 0 <= i < |order| && order[i] == k;
          assert init[i] == k;
        }
      }
      ListingLength(init, keys - {last});
    }
  }

  /** The written lines as readLine returns them, when no key or value holds a line break. */
  lemma WrittenLines(urls: map<string, string>, order: seq<string>)
    requires forall k :: k in order ==> k in urls
    requires forall k :: k in urls ==> NoLineBreak(k) && NoLineBreak(urls[k])
    ensures ReadLines(Render(urls, order)) == [Header] + EntryLines(urls, order)
  {
    var lines := [Header] + EntryLines(urls, order);
    forall i | 0 <= i < |lines|
      ensures NoLineBreak(lines[i])
    {
      if i > 0 {
        EntryLineNoBreak(order[i - 1], urls[order[i - 1]]);
      }
    }
    assert lines[|lines| - 1] != "";
    ReadLinesJoin(lines, NL);
  }

  lemma EntryLineNoBreak(k: string, v: string)
    requires NoLineBreak(k) && NoLineBreak(v)
    ensures NoLineBreak(EntryLine(k, v))
  {
    var line := EntryLine(k, v);
    forall j | 0 <= j < |line|
      ensures !IsLineBreak(line[j])
    {
      if j < |k| {
        assert line[j] == k[j];
      } else if j >= |k| + 2 {
        assert line[j] == v[j - |k| - 2];
      }
    }
  }

  /** The written text has one line for the header and one per entry. */
  lemma WrittenLineCount(urls: map<string, string>, order: seq<string>)
    requires IsListing(order, urls)
    requires forall k :: k in urls ==> NoLineBreak(k) && NoLineBreak(urls[k])
    ensures |ReadLines(Render(urls, order))| == 1 + |urls|
  {
    WrittenLines(urls, order);
    ListingLength(order, urls.Keys);
  }

  /** One entry line stores its key with the value behind a space. */
  lemma EntryStored(m: map<string, string>, k: string, v: string)
    requires ',' !in k && ',' !in v
    ensures ApplyLine(m, EntryLine(k, v)) == m[k := " " + v]
  {
    SplitTwoFields(k, " " + v);
    assert EntryLine(k, v) == k + "," + (" " + v);
  }

  /** Reading entry lines adds each key with its value behind a space, when neither holds a comma. */
  lemma {:induction false} ApplyEntryLines(m: map<string, string>, urls: map<string, string>, order: seq<string>)
    requires forall k :: k in order ==> k in urls
    requires forall k :: k in urls ==> ',' !in k && ',' !in urls[k]
    ensures ApplyLines(m, EntryLines(urls, order)) == m + SpacedValues(urls, order)
    decreases |order|
  {
    if order != [] {
      var init := order[..|order| - 1];
      var k := order[|order| - 1];
      var v := urls[k];
      assert order == init + [k];
      EntryLinesSnoc(urls, init, k);
      var lines := EntryLines(urls, order);
      assert lines[..|lines| - 1] == EntryLines(urls, init);
      var before := SpacedValues(urls, init);
      calc {
        ApplyLines(m, lines);
        ApplyLine(ApplyLines(m, EntryLines(urls, init)), EntryLine(k, v));
        { ApplyEntryLines(m, urls, init); }
        ApplyLine(m + before, EntryLine(k, v));
        { EntryStored(m + before, k, v); }
        (m + before)[k := " " + v];
        { UpdateAfterUnion(m, before, k, " " + v); }
        m + before[k := " " + v];
        { SpacedValuesSnoc(urls, init, k); }
        m + SpacedValues(urls, order);
      }
    }
  }

  lemma EntryLinesSnoc(urls: map<string, string>, keys: seq<string>, k: string)
    requires forall x :: x in keys ==> x in urls
    requires k in urls
    ensures EntryLines(urls, keys + [k]) == EntryLines(urls, keys) + [EntryLine(k, urls[k])]
  {
  }

  lemma UpdateAfterUnion(m: map<string, string>, a: map<string, string>, k: string, v: string)
    ensures (m + a)[k := v] == m + a[k := v]
  {
  }

  lemma SpacedValuesSnoc(urls: map<string, string>, keys: seq<string>, k: string)
    requires forall x :: x in keys ==> x in urls
    requires k in urls
    ensures SpacedValues(urls, keys + [k]) == SpacedValues(urls, keys)[k := " " + urls[k]]
  {
  }

  /** A written line names its own key whenever the key holds no comma, whatever the value holds. */
  lemma EntryNamesKey(k: string, v: string)
    requires ',' !in k
    ensures Names(EntryLine(k, v), k)
  {
    var line := EntryLine(k, v);
    assert line == k + "," + (" " + v);
    forall i: nat | i < |k|
      ensures !MatchAt(line, ",", i)
    {
      assert line[i] == k[i];
      assert line[i..i + 1][0] == line[i];
    }
    assert line[|k|..|k| + 1] == ",";
    assert MatchAt(line, ",", |k|);
    PiecesAtFirstMatch(line, ",", |k|);
    assert line[..|k|] == k && line[|k| + 1..] == " " + v;
    var tail := Pieces(" " + v, ",");
    assert !MatchAt(" " + v, ",", 0) by {
      assert (" " + v)[0..1][0] == ' ';
    }
    assert tail[0] != "";
    var p := Pieces(line, ",");
    assert p[1] != "";
  }

  /**
   * Reading back what the writer produced gives exactly the written keys,
   * provided no key holds a comma and nothing holds a line break; the values
   * may hold anything else.
   */
  lemma ReadBackKeys(urls: map<string, string>, order: seq<string>)
    requires IsListing(order, urls)
    requires forall k :: k in urls ==> ',' !in k
    requires forall k :: k in urls ==> NoLineBreak(k) && NoLineBreak(urls[k])
    ensures ReadInto(map[], ReadLines(Render(urls, order))).Keys == urls.Keys
  {
    WrittenLines(urls, order);
    var lines := EntryLines(urls, order);
    assert ([Header] + lines)[1..] == lines;
    forall k
      ensures k in ApplyLines(map[], lines) <==> k in urls
    {
      ApplyLinesKeys(map[], lines, k);
      if k in urls {
        var i :| 0 <= i < |order| && order[i] == k;
        EntryNamesKey(k, urls[k]);
        assert Names(lines[i], k);
      }
      if exists i :: 0 <= i < |lines| && Names(lines[i], k) {
        var i :| 0 <= i < |lines| && Names(lines[i], k);
        EntryNamesKey(order[i], urls[order[i]]);
        assert k == order[i];
      }
    }
  }

  /**
   * Reading back what the writer produced recovers every key, each value with
   * the leading space that ", " leaves after splitting on ",", provided no key
   * or value holds a comma or a line break.
   */
  lemma WriteThenRead(urls: map<string, string>, order: seq<string>)
    requires IsListing(order, urls)
    requires forall k :: k in urls ==> ',' !in k && ',' !in urls[k]
    requires forall k :: k in urls ==> NoLineBreak(k) && NoLineBreak(urls[k])
    ensures ReadInto(map[], ReadLines(Render(urls, order))) == map k | k in urls :: " " + urls[k]
  {
    WrittenLines(urls, order);
    var lines := [Header] + EntryLines(urls, order);
    assert lines[1..] == EntryLines(urls, order);
    ApplyEntryLines(map[], urls, order);
    assert map[] + SpacedValues(urls, order) == SpacedValues(urls, order);
  }
}
