/**
  * Worked examples of generate_github.py on concrete file names: what one file
  * is parsed into, and how sub-versions and main versions are ordered.
  */
module ManifestExamples {
  import opened Wrappers
  import opened Text
  import opened Regex
  import opened Ordering
  import opened Records

  const Sample := "SCx2.4API1.8.1.0.zip"

  lemma SplitTwo(a: string, b: string)
    requires '.' !in a && '.' !in b
    ensures Split(a + "." + b, '.') == [a, b]
  {
    SplitCons(a, b, '.');
    SplitNoSep(b, '.');
  }

  lemma SampleMainCapture()
    ensures CaptureAt(Sample, MainPattern, 0, "2.4")
  {
    var s := Sample;
    assert s[0..3] == "SCx";
    assert s[3..6] == "2.4";
    SplitTwo("2", "4");
    assert "2" + "." + "4" == "2.4";
    assert !DigitAt(s, 6);
  }

  /** The main version of the sample is the first `SCx` capture, "2.4". */
  lemma SampleMain()
    ensures MainVersion(Sample) == "2.4"
  {
    SampleMainCapture();
    var m := Search(Sample, MainPattern).value;
    CaptureUnique(Sample, MainPattern, 0, m.capture, "2.4");
  }

  lemma SampleApiSplit()
    ensures Split("1.8.1.0", '.') == ["1", "8", "1", "0"]
  {
    SplitTwo("1", "0");
    assert "1" + "." + "0" == "1.0";
    SplitCons("8", "1.0", '.');
    assert "8" + ['.'] + "1.0" == "8.1.0";
    SplitCons("1", "8.1.0", '.');
    assert "1" + ['.'] + "8.1.0" == "1.8.1.0";
  }

  lemma SampleApiSlices()
    ensures |Sample| == 20 && Sample[6..9] == "API" && Sample[9..16] == "1.8.1.0"
    ensures Sample[16] == '.' && Sample[17] == 'z'
  {
  }

  lemma SampleApiCapture()
    ensures CaptureAt(Sample, ApiPattern, 6, "1.8.1.0")
  {
    var s := Sample;
    SampleApiSlices();
    SampleApiSplit();
    assert !DigitAt(s, 16) && !DotDigitAt(s, 16);
  }

  lemma SampleApiFirst(k: nat, c: string)
    requires k < 6
    ensures !CaptureAt(Sample, ApiPattern, k, c)
  {
    assert Sample[k] != 'A';
    assert Sample[k..k + 3][0] == Sample[k];
  }

  lemma SampleApiSearch()
    ensures Search(Sample, ApiPattern) == Some(Match(6, "1.8.1.0"))
  {
    SampleApiCapture();
    var m := Search(Sample, ApiPattern).value;
    if m.pos < 6 {
      SampleApiFirst(m.pos, m.capture);
    }
    CaptureUnique(Sample, ApiPattern, 6, m.capture, "1.8.1.0");
  }

  lemma SampleApiTagged()
    ensures Tagged("API", Sample, ApiPattern) == "API1.8.1.0"
  {
    SampleApiSearch();
    assert Tagged("API", Sample, ApiPattern) == "API" + "1.8.1.0";
    SampleApiText();
  }

  lemma SampleApiText()
    ensures "API" + "1.8.1.0" == "API1.8.1.0"
  {
  }

  lemma SampleNoMarker()
    ensures OpenGLESSuffix(Sample) == ""
  {
    assert 'N' !in Sample;
    forall i | 0 <= i <= |Sample| - |NotOpenGLES| ensures !StartsAt(Sample, i, NotOpenGLES) {
      assert Sample[i..i + |NotOpenGLES|][0] == Sample[i];
    }
  }

  /** The API sub-version of the sample is "API" and the first `API` capture, with no marker. */
  lemma SampleSub()
    ensures SubVersion(Sample, "API") == "API1.8.1.0"
  {
    SampleApiTagged();
    SampleNoMarker();
    assert "API1.8.1.0" + "" == "API1.8.1.0";
  }

  lemma SampleFormat()
    ensures FileFormat(Sample) == "zip"
  {
    FileFormatOf("SCx2.4API1.8.1.0", "zip");
    assert "SCx2.4API1.8.1.0" + "." + "zip" == Sample;
  }

  /** "SCx2.4API1.8.1.0.zip" in the API folder. */
  lemma ParseSample()
    ensures var r := ParseFileInfo(Entry(Sample, true, 1024, "ab12"), "API");
      r.mainVersion == "2.4" && r.info.subVersion == "API1.8.1.0" && r.info.fileFormat == "zip" &&
      r.info.path == GithubBase + "API" + "%2F" + "2.4" + "%20" + "API1.8.1.0" + "." + "zip" &&
      r.info.size == 1024 && r.info.sha256 == "ab12" && r.info.illustrate == ""
  {
    SampleMain();
    SampleSub();
    SampleFormat();
  }

  // ---------------------------------------------------------------------
  // Ordering examples
  // ---------------------------------------------------------------------

  lemma DigitsKey(a: string)
    requires IsDigits(a)
    ensures DigitRuns("AP" + ['I'] + a) == [a]
  {
    DigitRunsSplit("AP", 'I', a);
    DigitRunsNone("AP");
    DigitRunsOfDigits(a);
  }

  lemma ApiRuns(a: string, b: string)
    requires IsDigits(a) && IsDigits(b)
    ensures DigitRuns("API" + a + "." + b) == [a, b]
  {
    var head := "AP" + ['I'] + a;
    assert "API" + a + "." + b == head + ['.'] + b;
    DigitRunsSplit(head, '.', b);
    DigitsKey(a);
    DigitRunsOfDigits(b);
  }

  /** The key of "API<a>.<b>" is the two numbers. */
  lemma ApiKey(a: string, b: string)
    requires IsDigits(a) && IsDigits(b)
    ensures SubKey("API" + a + "." + b) == [DecimalValue(a) as int, DecimalValue(b) as int]
  {
    ApiRuns(a, b);
    TwoRunKey("API" + a + "." + b, a, b);
  }

  lemma TwoRunKey(v: string, a: string, b: string)
    requires IsDigits(a) && IsDigits(b) && DigitRuns(v) == [a, b]
    ensures SubKey(v) == [DecimalValue(a) as int, DecimalValue(b) as int]
  {
    var k := SubKey(v);
    assert |k| == 2 && k[0] == DecimalValue(a) && k[1] == DecimalValue(b);
  }

  /** Insertion puts `x` in front of a head whose key is smaller. */
  lemma InsertBefore<T>(x: T, y: T, ys: seq<T>, key: T -> Key)
    requires Less(key(y), key(x))
    ensures Insert(x, [y] + ys, key) == [x, y] + ys
  {
    assert ([y] + ys)[0] == y;
  }

  /** Insertion passes a head whose key is not smaller. */
  lemma InsertAfter<T>(x: T, y: T, ys: seq<T>, key: T -> Key)
    requires !Less(key(y), key(x))
    ensures Insert(x, [y] + ys, key) == [y] + Insert(x, ys, key)
  {
    assert ([y] + ys)[0] == y && ([y] + ys)[1..] == ys;
  }

  /** Sorting `xs + [x]` inserts `x` into the sorted `xs`. */
  lemma SortSnoc<T>(xs: seq<T>, x: T, key: T -> Key)
    ensures SortDescending(xs + [x], key) == Insert(x, SortDescending(xs, key), key)
  {
    assert (xs + [x])[..|xs|] == xs;
  }

  lemma ApiKeys(x: FileInfo, y: FileInfo, z: FileInfo)
    requires x.subVersion == "API1.2" && y.subVersion == "API1.10" && z.subVersion == "API1.9"
    ensures FileKey(x) == [1, 2] && FileKey(y) == [1, 10] && FileKey(z) == [1, 9]
  {
    ApiKey("1", "2");
    ApiKey("1", "10");
    ApiKey("1", "9");
    assert "API" + "1" + "." + "2" == "API1.2";
    assert "API" + "1" + "." + "10" == "API1.10";
    assert "API" + "1" + "." + "9" == "API1.9";
    assert DecimalValue("10") == 10 && DecimalValue("9") == 9;
    assert DecimalValue("2") == 2 && DecimalValue("1") == 1;
  }

  /** Three records scanned as API1.2, API1.10, API1.9 end up API1.10, API1.9, API1.2: numbers, not text, are compared. */
  lemma SubVersionOrder(x: FileInfo, y: FileInfo, z: FileInfo)
    requires x.subVersion == "API1.2" && y.subVersion == "API1.10" && z.subVersion == "API1.9"
    ensures SortDescending([x, y, z], FileKey) == [y, z, x]
  {
    ApiKeys(x, y, z);
    SortSnoc([x], y, FileKey);
    InsertBefore(y, x, [], FileKey);
    assert [x] + [y] == [x, y] && [y, x] == [y] + [x];
    SortSnoc([x, y], z, FileKey);
    InsertAfter(z, y, [x], FileKey);
    InsertBefore(z, x, [], FileKey);
    assert [x, y] + [z] == [x, y, z];
  }

  /**
    * A build and its "NotOpenGLES" twin (API1.2 and API1.2NotOpenGLES, say)
    * have the same key, so they keep their scan order, whichever comes first.
    */
  lemma OpenGLESTieOrder(x: FileInfo, y: FileInfo)
    requires y.subVersion == x.subVersion + NotOpenGLES
    ensures SortDescending([x, y], FileKey) == [x, y]
    ensures SortDescending([y, x], FileKey) == [y, x]
  {
    SubKeyOpenGLESTie(x.subVersion);
    LessIrreflexive(FileKey(x));
    SortSnoc([x], y, FileKey);
    InsertAfter(y, x, [], FileKey);
    assert [x] + [y] == [x, y];
    SortSnoc([y], x, FileKey);
    InsertAfter(x, y, [], FileKey);
    assert [y] + [x] == [y, x];
  }

  lemma MainKeyTwo(a: string, b: string)
    requires IsDigits(a) && IsDigits(b)
    ensures MainKeyOf(a + "." + b) == [DecimalValue(a) as int, DecimalValue(b) as int]
  {
    var v := a + "." + b;
    SplitTwo(a, b);
    assert ValidVersion(v);
    assert v[0] == a[0] && IsDigit(v[0]);
    assert v != Unknown;
    var k := MainKey(v);
    assert |k| == 2 && k[0] == DecimalValue(a) && k[1] == DecimalValue(b);
  }

  /**
    * "2.4" and "2.04" are two dictionary keys with the same `main_version_cmp`
    * key, so their groups keep the order in which they were first seen.
    */
  lemma LeadingZeroTieOrder(a: string, t: string, x: string, y: string)
    requires IsDigits(a) && IsDigits(t)
    requires x == a + "." + t && y == a + "." + ("0" + t)
    ensures MainKeyOf(x) == MainKeyOf(y)
    ensures SortDescending([x, y], MainKeyOf) == [x, y]
    ensures SortDescending([y, x], MainKeyOf) == [y, x]
  {
    assert IsDigits("0" + t) by {
      forall k | 0 <= k < |"0" + t| ensures IsDigit(("0" + t)[k]) {
        if k > 0 { assert ("0" + t)[k] == t[k - 1]; }
      }
    }
    MainKeyTwo(a, t);
    MainKeyTwo(a, "0" + t);
    DecimalValueLeadingZero(t);
    LessIrreflexive(MainKeyOf(x));
    SortSnoc([x], y, MainKeyOf);
    InsertAfter(y, x, [], MainKeyOf);
    assert [x] + [y] == [x, y];
    SortSnoc([y], x, MainKeyOf);
    InsertAfter(x, y, [], MainKeyOf);
    assert [y] + [x] == [y, x];
  }

  lemma MainKeys(a: string, b: string, c: string, d: string)
    requires a == "2.3" && b == "2.10" && c == Unknown && d == "2.4"
    ensures MainKeyOf(a) == [2, 3] && MainKeyOf(b) == [2, 10] && MainKeyOf(c) == [-1] && MainKeyOf(d) == [2, 4]
  {
    MainKeyTwo("2", "3");
    MainKeyTwo("2", "10");
    MainKeyTwo("2", "4");
    assert "2" + "." + "3" == "2.3" && "2" + "." + "10" == "2.10" && "2" + "." + "4" == "2.4";
    assert DecimalValue("10") == 10 && DecimalValue("2") == 2;
    assert DecimalValue("3") == 3 && DecimalValue("4") == 4;
  }

  /** The main versions 2.3, 2.10, unknown, 2.4 are ordered 2.10, 2.4, 2.3, unknown. */
  lemma MainVersionOrder(a: string, b: string, c: string, d: string)
    requires a == "2.3" && b == "2.10" && c == Unknown && d == "2.4"
    ensures SortDescending([a, b, c, d], MainKeyOf) == [b, d, a, c]
  {
    MainKeys(a, b, c, d);
    SortSnoc([a], b, MainKeyOf);
    InsertBefore(b, a, [], MainKeyOf);
    assert [a] + [b] == [a, b] && [b, a] == [b] + [a];
    SortSnoc([a, b], c, MainKeyOf);
    InsertAfter(c, b, [a], MainKeyOf);
    InsertAfter(c, a, [], MainKeyOf);
    assert [a, b] + [c] == [a, b, c] && [b] + ([a] + [c]) == [b, a, c];
    SortSnoc([a, b, c], d, MainKeyOf);
    InsertAfter(d, b, [a, c], MainKeyOf);
    InsertBefore(d, a, [c], MainKeyOf);
    assert [a, b, c] + [d] == [a, b, c, d] && [b, a, c] == [b] + [a, c] && [a, c] == [a] + [c];
  }
}
