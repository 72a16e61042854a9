/**
  * The SRTM3 index script: every link of each folder page whose href ends
  * in the extension `.zip` is recorded in `hgt_urls` under the href minus
  * that extension, with the href and its full URL. Fetching and parsing the
  * pages is I/O; the model takes each page's hrefs as input.
  */
module Srtm3 {
  import opened Text

  datatype UrlEntry = UrlEntry(zip: string, url: string)

  /** The six folder pages, visited in this order. */
  const Srtm3Folders: seq<string> := [
    "http://dds.cr.usgs.gov/srtm/version2_1/SRTM3/Africa/",
    "http://dds.cr.usgs.gov/srtm/version2_1/SRTM3/Australia/",
    "http://dds.cr.usgs.gov/srtm/version2_1/SRTM3/Eurasia/",
    "http://dds.cr.usgs.gov/srtm/version2_1/SRTM3/Islands/",
    "http://dds.cr.usgs.gov/srtm/version2_1/SRTM3/North_America/",
    "http://dds.cr.usgs.gov/srtm/version2_1/SRTM3/South_America/"
  ]

  /** The href is recorded under `key`: its extension is exactly `.zip` and `key` is the rest. */
  predicate RecordsKey(href: string, key: string)
  {
    SplitExt(href) == (key, ".zip")
  }

  /** The table after one link. */
  function Record(urls: map<string, UrlEntry>, href: string, base: string): map<string, UrlEntry>
  {
    var (stem, ext) := SplitExt(href);
    if ext == ".zip" then urls[stem := UrlEntry(href, base + href)] else urls
  }

  /** The table after `process_links(links, base)`. */
  function Processed(urls: map<string, UrlEntry>, hrefs: seq<string>, base: string): map<string, UrlEntry>
  {
    if hrefs == [] then urls else Record(Processed(urls, hrefs[..|hrefs| - 1], base), hrefs[|hrefs| - 1], base)
  }

  /** The table after the folder loop has processed one page per folder. */
  function ProcessedAll(urls: map<string, UrlEntry>, pages: seq<seq<string>>, folders: seq<string>): map<string, UrlEntry>
    requires |pages| == |folders|
  {
    if pages == [] then urls
    else
      var n := |pages| - 1;
      Processed(ProcessedAll(urls, pages[..n], folders[..n]), pages[n], folders[n])
  }

  /** A link adds exactly its stem, and only when its extension is `.zip`. */
  lemma RecordKeys(urls: map<string, UrlEntry>, href: string, base: string)
    ensures Record(urls, href, base).Keys == urls.Keys + (if SplitExt(href).1 == ".zip" then {SplitExt(href).0} else {})
    ensures SplitExt(href).1 != ".zip" ==> Record(urls, href, base) == urls
    ensures forall key :: RecordsKey(href, key) ==> Record(urls, href, base)[key] == UrlEntry(href, base + href)
    ensures forall key :: key in urls && !RecordsKey(href, key) ==> Record(urls, href, base)[key] == urls[key]
  {
  }

  /** `N00E010.hgt.zip` is recorded under `N00E010.hgt`. */
  lemma RecordExample(base: string)
    ensures RecordsKey("N00E010.hgt.zip", "N00E010.hgt")
    ensures Record(map[], "N00E010.hgt.zip", base)
         == map["N00E010.hgt" := UrlEntry("N00E010.hgt.zip", base + "N00E010.hgt.zip")]
  {
    assert "N00E010.hgt.zip" == "N00E010.hgt" + ".zip";
    assert RFind("N00E010.hgt", '/') == -1;
    assert "N00E010.hgt"[0] != '.';
    SplitExtOfExtension("N00E010.hgt", ".zip");
  }

  /** A link without the `.zip` extension, such as a folder link, leaves the table as it was. */
  lemma OtherLinkIgnored(urls: map<string, UrlEntry>, base: string)
    ensures Record(urls, "../", base) == urls
  {
    assert RFind("../", '.') == 1;
  }

  /** Processing two lists of links in turn is processing their concatenation. */
  lemma {:induction false} ProcessedAppend(urls: map<string, UrlEntry>, a: seq<string>, b: seq<string>, base: string)
    ensures Processed(urls, a + b, base) == Processed(Processed(urls, a, base), b, base)
  {
    if b == [] {
      assert a + b == a;
    } else {
      var init := b[..|b| - 1];
      assert (a + b)[..|a + b| - 1] == a + init;
      ProcessedAppend(urls, a, init, base);
    }
  }

  /** A key no link records keeps its old entry, or stays absent. */
  lemma {:induction false} ProcessedUntouched(urls: map<string, UrlEntry>, hrefs: seq<string>, base: string, key: string)
    requires forall j :: 0 <= j < |hrefs| ==> !RecordsKey(hrefs[j], key)
    ensures key in Processed(urls, hrefs, base) <==> key in urls
    ensures key in urls ==> Processed(urls, hrefs, base)[key] == urls[key]
  {
    if hrefs != [] {
      var init := hrefs[..|hrefs| - 1];
      assert forall j :: 0 <= j < |init| ==> init[j] == hrefs[j];
      ProcessedUntouched(urls, init, base, key);
      RecordKeys(Processed(urls, init, base), hrefs[|hrefs| - 1], base);
    }
  }

  /** The entry under a key comes from the last link that records it. */
  lemma {:induction false} ProcessedLastWins(urls: map<string, UrlEntry>, hrefs: seq<string>, base: string, key: string, j: nat)
    requires j < |hrefs| && RecordsKey(hrefs[j], key)
    requires forall k :: j < k < |hrefs| ==> !RecordsKey(hrefs[k], key)
    ensures key in Processed(urls, hrefs, base)
    ensures Processed(urls, hrefs, base)[key] == UrlEntry(hrefs[j], base + hrefs[j])
  {
    var prefix := hrefs[..j + 1];
    var suffix := hrefs[j + 1..];
    assert hrefs == prefix + suffix;
    ProcessedAppend(urls, prefix, suffix, base);
    assert prefix[..|prefix| - 1] == hrefs[..j];
    RecordKeys(Processed(urls, hrefs[..j], base), hrefs[j], base);
    assert forall k :: 0 <= k < |suffix| ==> suffix[k] == hrefs[j + 1 + k];
    ProcessedUntouched(Processed(urls, prefix, base), suffix, base, key);
  }

  /** A later folder's pages cannot disturb a key none of them records. */
  lemma {:induction false} LaterFoldersUntouched(urls: map<string, UrlEntry>, pages: seq<seq<string>>, folders: seq<string>, i: nat, key: string)
    requires |pages| == |folders| && i <= |pages|
    requires forall p, j :: i <= p < |pages| && 0 <= j < |pages[p]| ==> !RecordsKey(pages[p][j], key)
    ensures key in ProcessedAll(urls, pages, folders) <==> key in ProcessedAll(urls, pages[..i], folders[..i])
    ensures key in ProcessedAll(urls, pages[..i], folders[..i]) ==>
              ProcessedAll(urls, pages, folders)[key] == ProcessedAll(urls, pages[..i], folders[..i])[key]
    decreases |pages| - i
  {
    if i == |pages| {
      assert pages[..i] == pages && folders[..i] == folders;
    } else {
      var n := |pages| - 1;
      assert pages[..n][..i] == pages[..i] && folders[..n][..i] == folders[..i];
      LaterFoldersUntouched(urls, pages[..n], folders[..n], i, key);
      ProcessedUntouched(ProcessedAll(urls, pages[..n], folders[..n]), pages[n], folders[n], key);
    }
  }

  /** The `hgt_urls` table the script fills. */
  class LinkIndex {
    var hgtUrls: map<string, UrlEntry>

    constructor ()
      ensures hgtUrls == map[]
    {
      hgtUrls := map[];
    }

    /** `process_links(links, url)`: each `.zip` href is stored under its stem, overwriting. */
    method ProcessLinks(hrefs: seq<string>, base: string)
      modifies this
      ensures hgtUrls == Processed(old(hgtUrls), hrefs, base)
    {
      var i := 0;
      while i < |hrefs|
        invariant 0 <= i <= |hrefs|
        invariant hgtUrls == Processed(old(hgtUrls), hrefs[..i], base)
      {
        var zipFilename := hrefs[i];
        var fullUrl := base + zipFilename;
        var (hgtFilename, zipExtension) := SplitExt(zipFilename);
        if zipExtension == ".zip" {
          hgtUrls := hgtUrls[hgtFilename := UrlEntry(zipFilename, fullUrl)];
        }
        assert hrefs[..i + 1][..i] == hrefs[..i];
        i := i + 1;
      }
      assert hrefs[..i] == hrefs;
    }

    /** The folder loop: `pages[k]` holds the hrefs found on `Srtm3Folders[k]`. */
    method CollectAll(pages: seq<seq<string>>)
      requires |pages| == |Srtm3Folders|
      modifies this
      ensures hgtUrls == ProcessedAll(old(hgtUrls), pages, Srtm3Folders)
    {
      var k := 0;
      while k < |Srtm3Folders|
        invariant 0 <= k <= |Srtm3Folders|
        invariant hgtUrls == ProcessedAll(old(hgtUrls), pages[..k], Srtm3Folders[..k])
      {
        ProcessLinks(pages[k], Srtm3Folders[k]);
        assert pages[..k + 1][..k] == pages[..k] && Srtm3Folders[..k + 1][..k] == Srtm3Folders[..k];
        k := k + 1;
      }
      assert pages[..k] == pages && Srtm3Folders[..k] == Srtm3Folders;
    }
  }
}
