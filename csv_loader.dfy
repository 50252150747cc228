/**
 * CSVLoaderService: turns the *.csv files of a directory, already split into
 * records of fields, into the symbol -> series dataset. Every file yields
 * one symbol (from its name) and one series (its records after the header);
 * one bad file name or one bad record aborts the whole load.
 */
module CsvLoader {
  import opened Results
  import opened Decimals
  import opened Numerals
  import opened Streams

  /** A price observation (Crypto): symbol, epoch-millisecond timestamp, price. */
  datatype Crypto = Crypto(symbol: string, timestamp: int, price: Decimal)

  type Dataset = map<string, seq<Crypto>>

  /** A directory entry: the file name and the records its CSV reader returns. */
  datatype CsvFile = CsvFile(name: string, records: seq<seq<string>>)

  /** String.join(sep, parts). */
  function Join(parts: seq<string>, sep: string): (r: string)
    ensures |parts| == 1 ==> r == parts[0]
    ensures parts == [] ==> r == ""
    ensures |parts| > 0 ==> |r| == TotalLength(parts) + (|parts| - 1) * |sep|
  {
    if parts == [] then ""
    else if |parts| == 1 then parts[0]
    else parts[0] + sep + Join(parts[1..], sep)
  }

  function TotalLength(parts: seq<string>): nat {
    if parts == [] then 0 else |parts[0]| + TotalLength(parts[1..])
  }

  /** A record of three fields is joined back as field, separator, field, separator, field. */
  lemma JoinThree(a: string, b: string, c: string, sep: string)
    ensures Join([a, b, c], sep) == a + sep + b + sep + c
  {
    assert [a, b, c][1..] == [b, c] && [b, c][1..] == [c];
  }

  const MalformedLine: string := "Malformed CSV line: "
  const ParseError: string := "Error parsing line: "

  /**
   * parseCryptoLine: a record must have exactly three fields, a long
   * timestamp first and a decimal price third; the second field becomes the
   * symbol unchecked.
   */
  function ParseCryptoLine(fields: seq<string>): (r: Result<Crypto>)
    ensures |fields| != 3 ==> r == Err(DataMalformed(MalformedLine + Join(fields, ",")))
    ensures |fields| == 3 ==> (r.Ok? <==> ParseLong(fields[0]).Some? && ParseDecimal(fields[2]).Some?)
    ensures |fields| == 3 && r.Err? ==> r.error == DataMalformed(ParseError + Join(fields, ","))
    ensures r.Ok? ==> && r.value.symbol == fields[1]
                      && ParseLong(fields[0]) == Some(r.value.timestamp)
                      && ParseDecimal(fields[2]) == Some(r.value.price)
  {
    if |fields| != 3 then Err(DataMalformed(MalformedLine + Join(fields, ",")))
    else
      match (ParseLong(fields[0]), ParseDecimal(fields[2]))
      case (Some(t), Some(p)) => Ok(Crypto(fields[1], t, p))
      case _ => Err(DataMalformed(ParseError + Join(fields, ",")))
  }

  /** A record printed from an observation parses back to that observation. */
  lemma ParsePrintedLine(c: Crypto)
    requires LongMin <= c.timestamp <= LongMax
    ensures ParseCryptoLine([ShowLong(c.timestamp), c.symbol, ToPlainString(c.price)]) == Ok(c)
  {
    ParseShowLong(c.timestamp);
    ParsePlainString(c.price);
  }

  /**
   * loadCryptoData's records.stream().skip(1).map(parseCryptoLine).toList():
   * the first record is a header and is dropped, every other record is
   * parsed in file order, and the first bad one fails the file.
   */
  function LoadCryptoData(records: seq<seq<string>>): (r: Result<seq<Crypto>>)
    ensures r.Ok? <==> forall i :: 1 <= i < |records| ==> ParseCryptoLine(records[i]).Ok?
    ensures r.Ok? ==> |r.value| == if records == [] then 0 else |records| - 1
    ensures r.Ok? ==> forall i :: 1 <= i < |records| ==> ParseCryptoLine(records[i]) == Ok(r.value[i - 1])
    ensures r.Err? ==> exists i :: && 1 <= i < |records| && ParseCryptoLine(records[i]) == Err(r.error)
                                   && forall j :: 1 <= j < i ==> ParseCryptoLine(records[j]).Ok?
  {
    var rows := if records == [] then [] else records[1..];
    assert forall i :: 1 <= i < |records| ==> records[i] == rows[i - 1];
    MapAll(rows, ParseCryptoLine)
  }

  const ValuesSuffix: string := "_values.csv"
  const InvalidFileName: string := "Invalid file name format: "

  predicate IsAsciiLetter(c: char) {
    'A' <= c <= 'Z' || 'a' <= c <= 'z'
  }

  predicate AllLetters(s: string) {
    forall i :: 0 <= i < |s| ==> IsAsciiLetter(s[i])
  }

  /**
   * extractSymbolFromFileName with the pattern ([A-Za-z]+)_values\.csv$
   * matched against the whole name: the symbol is the non-empty run of
   * ASCII letters before "_values.csv".
   */
  function ExtractSymbolFromFileName(name: string): (r: Result<string>)
    ensures r.Ok? ==> |r.value| > 0 && AllLetters(r.value) && name == r.value + ValuesSuffix
    ensures r.Err? ==> r.error == Validation(InvalidFileName + name)
  {
    var n := |name| - |ValuesSuffix|;
    if n > 0 && name[n..] == ValuesSuffix && AllLetters(name[..n]) then
      assert name == name[..n] + ValuesSuffix;
      Ok(name[..n])
    else
      Err(Validation(InvalidFileName + name))
  }

  /** Every name made of a non-empty run of letters and "_values.csv" is accepted, with that run as symbol. */
  lemma ExtractSymbolAccepts(sym: string)
    requires |sym| > 0 && AllLetters(sym)
    ensures ExtractSymbolFromFileName(sym + ValuesSuffix) == Ok(sym)
  {
    var name := sym + ValuesSuffix;
    assert name[..|sym|] == sym && name[|sym|..] == ValuesSuffix;
  }

  /** The name is recovered from the symbol, so distinct file names give distinct symbols. */
  lemma SymbolsDistinct(a: string, b: string)
    requires ExtractSymbolFromFileName(a).Ok? && ExtractSymbolFromFileName(b).Ok?
    requires a != b
    ensures ExtractSymbolFromFileName(a).value != ExtractSymbolFromFileName(b).value
  {
  }

  /** The test directory's invalid name: a suffix after "_values" does not match the whole name. */
  lemma RejectsTrailingSuffix()
    ensures ExtractSymbolFromFileName("BTC_values_1232.csv") == Err(Validation(InvalidFileName + "BTC_values_1232.csv"))
  {
    var name := "BTC_values_1232.csv";
    assert name[8..][0] == name[8] == 'e' != ValuesSuffix[0];
  }

  lemma AcceptsTestName()
    ensures ExtractSymbolFromFileName("BTC_values.csv") == Ok("BTC")
  {
    ExtractSymbolAccepts("BTC");
    assert "BTC" + ValuesSuffix == "BTC_values.csv";
  }

  /** The directory stream's glob *.csv: any name ending in ".csv". */
  predicate IsCsvFile(f: CsvFile) {
    |f.name| >= 4 && f.name[|f.name| - 4..] == ".csv"
  }

  /** The glob *.csv matches exactly the names made of some stem and ".csv". */
  lemma CsvGlob(stem: string, f: CsvFile)
    ensures IsCsvFile(CsvFile(stem + ".csv", f.records))
    ensures IsCsvFile(f) ==> f.name == f.name[..|f.name| - 4] + ".csv"
  {
    var name := stem + ".csv";
    assert name[|name| - 4..] == ".csv";
    if IsCsvFile(f) {
      assert f.name == f.name[..|f.name| - 4] + f.name[|f.name| - 4..];
    }
  }

  /** The task of one file, joined: its records' series, or its failure wrapped by join. */
  function JoinedSeries(f: CsvFile): (r: Result<seq<Crypto>>)
    ensures r.Err? <==> LoadCryptoData(f.records).Err?
    ensures r.Err? ==> r.error == Completion(LoadCryptoData(f.records).error)
    ensures r.Ok? ==> r.value == LoadCryptoData(f.records).value
    ensures r.Err? ==> r.error.Completion? && r.error.cause.DataMalformed?
  {
    match LoadCryptoData(f.records)
    case Ok(s) => Ok(s)
    case Err(e) => Err(Completion(e))
  }

  function SymbolOf(f: CsvFile): Result<string> {
    ExtractSymbolFromFileName(f.name)
  }

  /** Collectors.toMap over (key, value) pairs in order; a repeated key fails. */
  function ToMap(keys: seq<string>, values: seq<seq<Crypto>>): (r: Result<Dataset>)
    requires |keys| == |values|
    ensures r.Err? ==> r.error.DuplicateKey?
  {
    if keys == [] then Ok(map[])
    else
      var n := |keys| - 1;
      match ToMap(keys[..n], values[..n])
      case Err(e) => Err(e)
      case Ok(m) =>
        if keys[n] in m then Err(DuplicateKey(keys[n]))
        else Ok(m[keys[n] := values[n]])
  }

  /**
   * What toMap builds: it succeeds exactly when the keys are distinct, and
   * then maps exactly those keys, each to its own value; otherwise it fails
   * on a duplicate key.
   */
  lemma {:induction false} ToMapMeaning(keys: seq<string>, values: seq<seq<Crypto>>)
    requires |keys| == |values|
    ensures ToMap(keys, values).Ok? <==> Distinct(keys)
    ensures ToMap(keys, values).Ok? ==> forall k :: k in ToMap(keys, values).value <==> k in keys
    ensures ToMap(keys, values).Ok? ==> forall i :: 0 <= i < |keys| ==> ToMap(keys, values).value[keys[i]] == values[i]
    ensures ToMap(keys, values).Err? ==> ToMap(keys, values).error.DuplicateKey?
  {
    if keys != [] {
      var n := |keys| - 1;
      var init := keys[..n];
      ToMapMeaning(init, values[..n]);
      assert forall i :: 0 <= i < n ==> init[i] == keys[i];
      assert keys == init + [keys[n]];
      match ToMap(init, values[..n])
      case Err(e) =>
        assert !Distinct(init);
        var i, j :| 0 <= i < j < n && init[i] == init[j];
        assert keys[i] == keys[j];
      case Ok(m) =>
        if keys[n] in m {
          var i :| 0 <= i < n && init[i] == keys[n];
          assert keys[i] == keys[n];
        } else {
          DistinctSnoc(init, keys[n]);
        }
    }
  }

  /**
   * loadAllCryptos, run sequentially: every *.csv file's symbol is taken
   * from its name first (a bad name is thrown directly), then every file's
   * task is joined in order (a failed task is thrown wrapped by join), and
   * the pairs are collected into a map.
   */
  function LoadAll(dir: seq<CsvFile>): (r: Result<Dataset>)
    ensures r.Err? ==> || r.error.Validation?
                       || (r.error.Completion? && r.error.cause.DataMalformed?)
                       || r.error.DuplicateKey?
  {
    var files := Filter(dir, IsCsvFile);
    var symbols :- MapAll(files, SymbolOf);
    var series :- MapAll(files, JoinedSeries);
    ToMap(symbols, series)
  }

  ghost predicate DistinctNames(dir: seq<CsvFile>) {
    forall i, j :: 0 <= i < j < |dir| ==> dir[i].name != dir[j].name
  }

  lemma {:induction false} FilterDistinctNames(dir: seq<CsvFile>, p: CsvFile -> bool)
    requires DistinctNames(dir)
    ensures DistinctNames(Filter(dir, p))
  {
    if dir != [] {
      var rest := Filter(dir[1..], p);
      FilterDistinctNames(dir[1..], p);
      if p(dir[0]) {
        assert forall f :: f in rest ==> f in dir[1..];
        HeadNameFresh(dir, rest);
        ConsDistinctNames(dir[0], rest);
        assert Filter(dir, p) == [dir[0]] + rest;
      } else {
        assert Filter(dir, p) == rest;
      }
    }
  }

  /** Files taken from the tail of a listing with distinct names do not share the head's name. */
  lemma HeadNameFresh(dir: seq<CsvFile>, rest: seq<CsvFile>)
    requires DistinctNames(dir) && dir != []
    requires forall f :: f in rest ==> f in dir[1..]
    ensures forall j :: 0 <= j < |rest| ==> rest[j].name != dir[0].name
  {
    forall j | 0 <= j < |rest| ensures rest[j].name != dir[0].name {
      assert rest[j] in rest;
      var k :| 0 <= k < |dir[1..]| && dir[1..][k] == rest[j];
      assert dir[k + 1] == rest[j];
    }
  }

  lemma ConsDistinctNames(f: CsvFile, rest: seq<CsvFile>)
    requires DistinctNames(rest)
    requires forall j :: 0 <= j < |rest| ==> rest[j].name != f.name
    ensures DistinctNames([f] + rest)
  {
    var r := [f] + rest;
    forall i, j | 0 <= i < j < |r| ensures r[i].name != r[j].name {
      assert r[j] == rest[j - 1];
      if i > 0 {
        assert r[i] == rest[i - 1];
      }
    }
  }

  /** The *.csv files of a listing with distinct names get distinct symbols, so toMap never fails. */
  lemma {:induction false} CsvSymbolsDistinct(dir: seq<CsvFile>)
    requires DistinctNames(dir)
    requires MapAll(Filter(dir, IsCsvFile), SymbolOf).Ok?
    ensures var ks := MapAll(Filter(dir, IsCsvFile), SymbolOf).value;
      forall i, j :: 0 <= i < j < |ks| ==> ks[i] != ks[j]
  {
    var files := Filter(dir, IsCsvFile);
    FilterDistinctNames(dir, IsCsvFile);
    var ks := MapAll(files, SymbolOf).value;
    forall i, j | 0 <= i < j < |ks| ensures ks[i] != ks[j] {
      SymbolsDistinct(files[i].name, files[j].name);
    }
  }

  /**
   * All or nothing: a load of a listing with distinct names succeeds
   * exactly when every *.csv name has the expected form and every such
   * file's records parse.
   */
  lemma {:induction false} LoadAllSucceeds(dir: seq<CsvFile>)
    requires DistinctNames(dir)
    ensures LoadAll(dir).Ok? <==>
      forall f :: f in dir && IsCsvFile(f) ==> SymbolOf(f).Ok? && LoadCryptoData(f.records).Ok?
  {
    var files := Filter(dir, IsCsvFile);
    var syms := MapAll(files, SymbolOf);
    var series := MapAll(files, JoinedSeries);
    if syms.Ok? && series.Ok? {
      CsvSymbolsDistinct(dir);
      ToMapMeaning(syms.value, series.value);
      assert LoadAll(dir) == ToMap(syms.value, series.value);
      forall f | f in dir && IsCsvFile(f) ensures SymbolOf(f).Ok? && LoadCryptoData(f.records).Ok? {
        assert f in files;
      }
    } else if syms.Err? {
      var i :| 0 <= i < |files| && SymbolOf(files[i]).Err?;
      assert files[i] in files;
    } else {
      var i :| 0 <= i < |files| && JoinedSeries(files[i]).Err?;
      assert files[i] in files;
    }
  }

  /** The position of a *.csv file among the files the load goes through. */
  lemma CsvFileIndex(dir: seq<CsvFile>, f: CsvFile) returns (i: nat)
    requires f in dir && IsCsvFile(f)
    ensures i < |Filter(dir, IsCsvFile)| && Filter(dir, IsCsvFile)[i] == f
  {
    var files := Filter(dir, IsCsvFile);
    assert f in files;
    i :| 0 <= i < |files| && files[i] == f;
  }

  /** A successful load of a listing as the map built from its symbols and series. */
  lemma LoadAllOk(dir: seq<CsvFile>)
    requires LoadAll(dir).Ok?
    ensures MapAll(Filter(dir, IsCsvFile), SymbolOf).Ok?
    ensures MapAll(Filter(dir, IsCsvFile), JoinedSeries).Ok?
    ensures ToMap(MapAll(Filter(dir, IsCsvFile), SymbolOf).value, MapAll(Filter(dir, IsCsvFile), JoinedSeries).value) == LoadAll(dir)
  {
  }

  /**
   * What a successful load holds: an entry for the symbol of every *.csv
   * file, whose series is that file's records after the header, parsed in
   * file order.
   */
  lemma LoadAllEntries(dir: seq<CsvFile>, f: CsvFile)
    requires LoadAll(dir).Ok?
    requires f in dir && IsCsvFile(f)
    ensures SymbolOf(f).Ok? && SymbolOf(f).value in LoadAll(dir).value
    ensures LoadAll(dir).value[SymbolOf(f).value] == LoadCryptoData(f.records).value
    ensures |LoadAll(dir).value[SymbolOf(f).value]| == if f.records == [] then 0 else |f.records| - 1
  {
    LoadAllOk(dir);
    var files := Filter(dir, IsCsvFile);
    var ks := MapAll(files, SymbolOf).value;
    var vs := MapAll(files, JoinedSeries).value;
    ToMapMeaning(ks, vs);
    var i := CsvFileIndex(dir, f);
    assert SymbolOf(files[i]) == Ok(ks[i]);
    assert JoinedSeries(files[i]) == Ok(vs[i]);
  }

  /** A successful load holds no entry other than the symbols of the *.csv files. */
  lemma LoadAllKeys(dir: seq<CsvFile>, k: string)
    requires LoadAll(dir).Ok?
    requires k in LoadAll(dir).value
    ensures exists f :: f in dir && IsCsvFile(f) && SymbolOf(f) == Ok(k)
  {
    LoadAllOk(dir);
    var files := Filter(dir, IsCsvFile);
    var ks := MapAll(files, SymbolOf).value;
    ToMapMeaning(ks, MapAll(files, JoinedSeries).value);
    assert k in ks;
    var i :| 0 <= i < |ks| && ks[i] == k;
    assert files[i] in files;
    assert SymbolOf(files[i]) == Ok(k);
  }

  /**
   * How a load fails on names: a bad *.csv name is reported unwrapped,
   * before any record is looked at.
   */
  lemma LoadAllBadName(dir: seq<CsvFile>, g: CsvFile)
    requires g in dir && IsCsvFile(g) && SymbolOf(g).Err?
    ensures LoadAll(dir).Err?
    ensures var files := Filter(dir, IsCsvFile);
      exists i :: && 0 <= i < |files| && SymbolOf(files[i]).Err?
                  && LoadAll(dir).error == Validation(InvalidFileName + files[i].name)
                  && forall j :: 0 <= j < i ==> SymbolOf(files[j]).Ok?
  {
    var files := Filter(dir, IsCsvFile);
    var j := CsvFileIndex(dir, g);
    var syms := MapAll(files, SymbolOf);
    assert syms.Err?;
    var i :| 0 <= i < |files| && SymbolOf(files[i]) == Err(syms.error) && forall j :: 0 <= j < i ==> SymbolOf(files[j]).Ok?;
    assert LoadAll(dir).error == Validation(InvalidFileName + files[i].name);
  }

  /** With well-formed, distinct names, only the joined tasks can make the load fail. */
  lemma LoadAllSeriesFails(dir: seq<CsvFile>)
    requires DistinctNames(dir)
    requires LoadAll(dir).Err?
    requires MapAll(Filter(dir, IsCsvFile), SymbolOf).Ok?
    ensures MapAll(Filter(dir, IsCsvFile), JoinedSeries).Err?
  {
    var files := Filter(dir, IsCsvFile);
    CsvSymbolsDistinct(dir);
    if MapAll(files, JoinedSeries).Ok? {
      ToMapMeaning(MapAll(files, SymbolOf).value, MapAll(files, JoinedSeries).value);
    }
  }

  /**
   * How a load fails on records: with every name well formed and the names
   * distinct, the failure is a file's parse error wrapped as by
   * CompletableFuture.join; a repeated key cannot occur.
   */
  lemma LoadAllBadRecords(dir: seq<CsvFile>)
    requires DistinctNames(dir)
    requires LoadAll(dir).Err?
    requires forall f :: f in dir && IsCsvFile(f) ==> SymbolOf(f).Ok?
    ensures var files := Filter(dir, IsCsvFile);
      exists i :: && 0 <= i < |files| && LoadCryptoData(files[i].records).Err?
                  && LoadAll(dir).error == Completion(LoadCryptoData(files[i].records).error)
                  && forall j :: 0 <= j < i ==> LoadCryptoData(files[j].records).Ok?
  {
    var files := Filter(dir, IsCsvFile);
    CsvNamesWellFormed(dir);
    LoadAllSeriesFails(dir);
    var series := MapAll(files, JoinedSeries);
    assert LoadAll(dir) == Err(series.error);
    var i :| 0 <= i < |files| && JoinedSeries(files[i]) == Err(series.error) && forall j :: 0 <= j < i ==> JoinedSeries(files[j]).Ok?;
    assert JoinedSeries(files[i]) == Err(Completion(LoadCryptoData(files[i].records).error));
  }

  lemma CsvNamesWellFormed(dir: seq<CsvFile>)
    requires forall f :: f in dir && IsCsvFile(f) ==> SymbolOf(f).Ok?
    ensures MapAll(Filter(dir, IsCsvFile), SymbolOf).Ok?
  {
    var files := Filter(dir, IsCsvFile);
    forall i | 0 <= i < |files| ensures SymbolOf(files[i]).Ok? {
      assert files[i] in files;
    }
  }

  /**
   * stream.map(f).toList() run step by step: each element is mapped in
   * order and the first failure is returned at once.
   */
  method MapInOrder<A, B>(s: seq<A>, f: A -> Result<B>) returns (r: Result<seq<B>>)
    ensures r == MapAll(s, f)
  {
    var out: seq<B> := [];
    var i := 0;
    while i < |s|
      invariant 0 <= i <= |s|
      invariant MapAll(s[..i], f) == Ok(out)
    {
      assert s[..i + 1][..i] == s[..i];
      match f(s[i])
      case Err(e) =>
        MapAllPrefixFails(s, f, i + 1);
        return Err(e);
      case Ok(v) =>
        out := out + [v];
      i := i + 1;
    }
    assert s[..i] == s;
    return Ok(out);
  }

  /** Collectors.toMap run step by step: a key already present fails the collection. */
  method CollectToMap(keys: seq<string>, values: seq<seq<Crypto>>) returns (r: Result<Dataset>)
    requires |keys| == |values|
    ensures r == ToMap(keys, values)
  {
    var m: Dataset := map[];
    var i := 0;
    while i < |keys|
      invariant 0 <= i <= |keys|
      invariant ToMap(keys[..i], values[..i]) == Ok(m)
    {
      ToMapStep(keys, values, i, m);
      if keys[i] in m {
        ToMapPrefixFails(keys, values, i + 1);
        return Err(DuplicateKey(keys[i]));
      }
      m := m[keys[i] := values[i]];
      i := i + 1;
    }
    assert keys[..i] == keys && values[..i] == values;
    return Ok(m);
  }

  /** One more pair: a key already present fails the collection, a new one is added. */
  lemma ToMapStep(keys: seq<string>, values: seq<seq<Crypto>>, i: nat, m: Dataset)
    requires |keys| == |values| && i < |keys|
    requires ToMap(keys[..i], values[..i]) == Ok(m)
    ensures ToMap(keys[..i + 1], values[..i + 1])
      == if keys[i] in m then Err(DuplicateKey(keys[i])) else Ok(m[keys[i] := values[i]])
  {
    assert keys[..i + 1] == keys[..i] + [keys[i]];
    assert values[..i + 1] == values[..i] + [values[i]];
    ToMapSnoc(keys[..i], values[..i], keys[i], values[i]);
  }

  lemma ToMapSnoc(keys: seq<string>, values: seq<seq<Crypto>>, k: string, v: seq<Crypto>)
    requires |keys| == |values|
    ensures ToMap(keys + [k], values + [v]) == match ToMap(keys, values)
      case Err(e) => Err(e)
      case Ok(m) => if k in m then Err(DuplicateKey(k)) else Ok(m[k := v])
  {
    var ks, vs := keys + [k], values + [v];
    assert ks[..|keys|] == keys && vs[..|keys|] == values;
  }

  /**
   * loadAllCryptos: the *.csv files of the listing each get their symbol
   * (and a task) in order, the tasks are joined in order, and the pairs
   * are collected into the dataset.
   */
  method LoadAllCryptos(dir: seq<CsvFile>) returns (r: Result<Dataset>)
    ensures r == LoadAll(dir)
  {
    var files := Filter(dir, IsCsvFile);
    var symbols := MapInOrder(files, SymbolOf);
    if symbols.Err? {
      return Err(symbols.error);
    }
    var series := MapInOrder(files, JoinedSeries);
    if series.Err? {
      return Err(series.error);
    }
    r := CollectToMap(symbols.value, series.value);
  }

  /** Once a prefix of the input fails, the whole mapping fails with the same error. */
  lemma {:induction false} MapAllPrefixFails<A, B>(s: seq<A>, f: A -> Result<B>, n: nat)
    requires n <= |s| && MapAll(s[..n], f).Err?
    ensures MapAll(s, f) == MapAll(s[..n], f)
    decreases |s| - n
  {
    if n < |s| {
      MapAllPrefixFails(s, f, n + 1);
      assert s[..n + 1][..n] == s[..n];
    } else {
      assert s[..n] == s;
    }
  }

  lemma {:induction false} ToMapPrefixFails(keys: seq<string>, values: seq<seq<Crypto>>, n: nat)
    requires |keys| == |values| && n <= |keys| && ToMap(keys[..n], values[..n]).Err?
    ensures ToMap(keys, values) == ToMap(keys[..n], values[..n])
    decreases |keys| - n
  {
    if n < |keys| {
      var ks, vs := keys[..n + 1], values[..n + 1];
      assert ks[..n] == keys[..n] && vs[..n] == values[..n];
      assert ToMap(ks, vs) == ToMap(keys[..n], values[..n]);
      ToMapPrefixFails(keys, values, n + 1);
    } else {
      assert keys[..n] == keys && values[..n] == values;
    }
  }
}
