/**
 * The device table (`parse_tabela` in src/scraper.py).
 *
 * The HTML table parser is a library call; its output arrives here as the list
 * of tables found on the page, in document order, the empty list standing for
 * "no table" (the library's `ValueError` and an empty result both end in the
 * same error).  The first table is kept, and each of its column headers is
 * renamed to one of three canonical names when its stripped, lower-cased text
 * contains a key word, the first matching rule winning.
 */
module Tabela {
  import opened Wrappers
  import opened Text
  import opened Errors

  /** A parsed HTML table: the column headers and the rows of cell texts. */
  datatype Table = Table(columns: seq<string>, rows: seq<seq<string>>)

  const CarroColumn: string := "Carro"
  const UltimoAcessoColumn: string := "Último Acesso"
  const StatusColumn: string := "Status"
  const CanonicalColumns: set<string> := {CarroColumn, UltimoAcessoColumn, StatusColumn}

  /**
   * The rules on a stripped, lower-cased header, first match winning: `carro`,
   * then `último` or `ultimo`, then `status`.
   */
  function Classify(nome: string): (r: Option<string>)
    ensures r.Some? ==> r.value in CanonicalColumns
  {
    if Contains(nome, "carro") then Some(CarroColumn)
    else if Contains(nome, "último") || Contains(nome, "ultimo") then Some(UltimoAcessoColumn)
    else if Contains(nome, "status") then Some(StatusColumn)
    else None
  }

  /** The canonical name a header is renamed to, if any. */
  function CanonicalName(header: string): (r: Option<string>)
    ensures r.Some? ==> r.value in CanonicalColumns
  {
    Classify(Lower(Strip(header)))
  }

  /** The header after normalisation: its canonical name, or the header verbatim. */
  function NormalizeHeader(header: string): (r: string)
    ensures r == header || r in CanonicalColumns
  {
    match CanonicalName(header)
    case Some(c) => c
    case None => header
  }

  /** `DataFrame.rename(columns=renaming)`: each header found in the map is replaced. */
  function Rename(columns: seq<string>, renaming: map<string, string>): (r: seq<string>)
    ensures |r| == |columns|
  {
    seq(|columns|, i requires 0 <= i < |columns| =>
      if columns[i] in renaming then renaming[columns[i]] else columns[i])
  }

  /** What `parse_tabela` returns for the tables the parser found. */
  function ParsedTable(tables: seq<Table>): (r: Result<Table, MonitoramentoError>)
    ensures r.Failure? <==> tables == []
    ensures r.Failure? ==> r.error == NoTableFound
    ensures r.Success? ==> && r.value.rows == tables[0].rows
                           && |r.value.columns| == |tables[0].columns|
                           && forall i :: 0 <= i < |r.value.columns| ==>
                                r.value.columns[i] == NormalizeHeader(tables[0].columns[i])
  {
    if tables == [] then
      Failure(NoTableFound)
    else
      var first := tables[0];
      Success(Table(seq(|first.columns|, i requires 0 <= i < |first.columns| =>
                          NormalizeHeader(first.columns[i])), first.rows))
  }

  /** All three canonical columns are present (otherwise `parse_tabela` logs a warning). */
  predicate HasCanonicalColumns(columns: seq<string>)
  {
    CanonicalColumns <= set c | c in columns
  }

  /**
   * One pass of the loop filling `colunas_normalizadas`: the header is added
   * with its canonical name when a rule recognises it, and the map is left
   * alone otherwise.
   */
  method RecordHeader(renaming: map<string, string>, col: string) returns (r: map<string, string>)
    ensures CanonicalName(col).Some? ==> r == renaming[col := CanonicalName(col).value]
    ensures CanonicalName(col).None? ==> r == renaming
  {
    var nome := Lower(Strip(col));
    r := renaming;
    if Contains(nome, "carro") {
      r := r[col := CarroColumn];
    } else if Contains(nome, "último") || Contains(nome, "ultimo") {
      r := r[col := UltimoAcessoColumn];
    } else if Contains(nome, "status") {
      r := r[col := StatusColumn];
    }
  }

  /**
   * The loop filling `colunas_normalizadas`: every header that some rule
   * recognises is mapped to its canonical name, and no other key is added.
   */
  method BuildRenaming(columns: seq<string>) returns (renaming: map<string, string>)
    ensures forall c :: c in renaming ==> c in columns
    ensures forall i :: 0 <= i < |columns| ==>
              (columns[i] in renaming <==> CanonicalName(columns[i]).Some?)
    ensures forall i :: 0 <= i < |columns| && columns[i] in renaming ==>
              renaming[columns[i]] == NormalizeHeader(columns[i])
  {
    ghost var names := seq(|columns|, k requires 0 <= k < |columns| => CanonicalName(columns[k]));
    renaming := map[];
    for i := 0 to |columns|
      invariant forall c :: c in renaming ==> c in columns[..i]
      invariant forall k :: 0 <= k < i ==> (columns[k] in renaming <==> names[k].Some?)
      invariant forall k :: 0 <= k < i && columns[k] in renaming ==> renaming[columns[k]] == names[k].value
    {
      renaming := RecordHeader(renaming, columns[i]);
      assert columns[..i + 1] == columns[..i] + [columns[i]];
    }
    assert columns[..|columns|] == columns;
    forall i | 0 <= i < |columns| && columns[i] in renaming
      ensures renaming[columns[i]] == NormalizeHeader(columns[i])
    {
      assert names[i] == CanonicalName(columns[i]);
    }
  }

  /**
   * `parse_tabela` on the parser's output: the error when there is no table,
   * otherwise the first table with its headers renamed.  `missingColumns` is
   * the warning raised when a canonical column is absent; it never turns the
   * result into an error.
   */
  method ParseTabela(tables: seq<Table>) returns (r: Result<Table, MonitoramentoError>, missingColumns: bool)
    ensures r == ParsedTable(tables)
    ensures missingColumns <==> r.Success? && !HasCanonicalColumns(r.value.columns)
  {
    if |tables| == 0 {
      return Failure(NoTableFound), false;
    }
    var df := tables[0];
    var renaming := BuildRenaming(df.columns);
    if |renaming| > 0 {
      df := df.(columns := Rename(df.columns, renaming));
    }
    var expected := ParsedTable(tables).value;
    forall i | 0 <= i < |df.columns| ensures df.columns[i] == expected.columns[i] {
      if renaming == map[] {
        assert tables[0].columns[i] !in renaming;
      }
    }
    assert df.columns == expected.columns;
    r := Success(df);
    missingColumns := !HasCanonicalColumns(df.columns);
  }

  // Properties of the normalisation.

  /** `Carro` is recognised as itself. */
  lemma CarroIsFixed()
    ensures CanonicalName(CarroColumn) == Some(CarroColumn)
  {
    StripUnpadded(CarroColumn);
    var l := Lower(CarroColumn);
    assert l == "carro" by {
      assert l[0] == 'c';
    }
    assert OccursAt(l, "carro", 0);
  }

  /** `Último Acesso` is recognised as itself: it has no `carro` but has `último`. */
  lemma UltimoAcessoIsFixed()
    ensures CanonicalName(UltimoAcessoColumn) == Some(UltimoAcessoColumn)
  {
    StripUnpadded(UltimoAcessoColumn);
    var l := Lower(UltimoAcessoColumn);
    assert l == "último acesso" by {
      assert l[0] == 'ú' && l[1] == 'l' && l[2] == 't' && l[3] == 'i' && l[4] == 'm' && l[5] == 'o';
      assert l[6] == ' ' && l[7] == 'a' && l[8] == 'c' && l[9] == 'e' && l[10] == 's' && l[11] == 's';
      assert l[12] == 'o';
    }
    forall i | 0 <= i <= |l| - 5 ensures !OccursAt(l, "carro", i) {
      assert l[i..i + 5][0] != 'c' || l[i..i + 5][1] != 'a';
    }
    assert OccursAt(l, "último", 0);
  }

  /** `Status` is recognised as itself: it has neither `carro` nor `último`/`ultimo`. */
  lemma StatusIsFixed()
    ensures CanonicalName(StatusColumn) == Some(StatusColumn)
  {
    StripUnpadded(StatusColumn);
    var l := Lower(StatusColumn);
    assert l == "status" by {
      assert l[0] == 's';
    }
    forall i | 0 <= i <= |l| - 5 ensures !OccursAt(l, "carro", i) {
      assert l[i..i + 5][0] != 'c';
    }
    forall i | 0 <= i <= |l| - 6 ensures !OccursAt(l, "último", i) && !OccursAt(l, "ultimo", i) {
      assert l[i..i + 6][0] == 's';
    }
    assert OccursAt(l, "status", 0);
  }

  /** Normalising a header a second time changes nothing. */
  lemma NormalizeIdempotent(header: string)
    ensures NormalizeHeader(NormalizeHeader(header)) == NormalizeHeader(header)
  {
    match CanonicalName(header)
    case None =>
    case Some(c) =>
      if c == CarroColumn {
        CarroIsFixed();
      } else if c == UltimoAcessoColumn {
        UltimoAcessoIsFixed();
      } else {
        StatusIsFixed();
      }
  }

  /** The classification ignores letter case. */
  lemma CanonicalNameIgnoresCase(header: string)
    ensures CanonicalName(Lower(header)) == CanonicalName(header)
  {
    StripLower(header);
    LowerIdempotent(Strip(header));
  }

  /** The classification ignores whitespace around the header. */
  lemma CanonicalNameIgnoresPadding(p: string, header: string, q: string)
    requires AllSpaces(p) && AllSpaces(q)
    ensures CanonicalName(p + header + q) == CanonicalName(header)
  {
    StripPadding(p, header, q);
  }

  /** Only the first table counts: later tables never change the result. */
  lemma OnlyFirstTableCounts(first: Table, later1: seq<Table>, later2: seq<Table>)
    ensures ParsedTable([first] + later1) == ParsedTable([first] + later2)
  {
  }

  /** Normalising an already normalised table changes nothing. */
  lemma ParsedTableIdempotent(tables: seq<Table>)
    requires tables != []
    ensures ParsedTable([ParsedTable(tables).value]) == ParsedTable(tables)
  {
    var t := ParsedTable(tables).value;
    var again := ParsedTable([t]).value;
    forall i | 0 <= i < |t.columns| ensures again.columns[i] == t.columns[i] {
      NormalizeIdempotent(tables[0].columns[i]);
    }
    assert again.columns == t.columns;
  }

  // Headers the rules are meant to accept, one lemma each.

  /** A header holding both `status` and `carro` goes to `Carro`: the first rule wins. */
  lemma StatusDoCarroIsCarro()
    ensures NormalizeHeader("Status do Carro") == CarroColumn
  {
    StripUnpadded("Status do Carro");
    var l := Lower("Status do Carro");
    assert l[10..15] == "carro" by {
      assert l[10] == 'c' && l[11] == 'a' && l[12] == 'r' && l[13] == 'r' && l[14] == 'o';
    }
    assert OccursAt(l, "carro", 10);
  }

  /** A header holding both `status` and `último` goes to `Último Acesso`: the second rule wins over the third. */
  lemma StatusUltimoIsUltimoAcesso()
    ensures NormalizeHeader("Status Último") == UltimoAcessoColumn
  {
    StripUnpadded("Status Último");
    var l := Lower("Status Último");
    assert l == "status último" by {
      assert l[0] == 's' && l[1] == 't' && l[2] == 'a' && l[3] == 't' && l[4] == 'u' && l[5] == 's';
      assert l[6] == ' ' && l[7] == 'ú' && l[8] == 'l' && l[9] == 't' && l[10] == 'i' && l[11] == 'm';
      assert l[12] == 'o';
    }
    forall i | 0 <= i <= |l| - 5 ensures !OccursAt(l, "carro", i) {
      assert l[i..i + 5][0] != 'c';
    }
    assert l[7..13] == "último";
    assert OccursAt(l, "último", 7);
  }

  /** Upper case does not hide the key word. */
  lemma UpperCaseCarroIsCarro()
    ensures NormalizeHeader("CARRO") == CarroColumn
  {
    StripUnpadded("CARRO");
    var l := Lower("CARRO");
    assert l == "carro" by {
      assert l[0] == 'c' && l[1] == 'a' && l[2] == 'r' && l[3] == 'r' && l[4] == 'o';
    }
    assert OccursAt(l, "carro", 0);
  }

  /** Trailing whitespace does not hide the key word. */
  lemma PaddedCarroIsCarro()
    ensures NormalizeHeader("carro ") == CarroColumn
  {
    assert "carro " == [] + "carro" + " ";
    StripPadding([], "carro", " ");
    StripUnpadded("carro");
    var l := Lower("carro");
    assert l == "carro" by {
      assert l[0] == 'c' && l[1] == 'a' && l[2] == 'r' && l[3] == 'r' && l[4] == 'o';
    }
    assert OccursAt(l, "carro", 0);
  }

  /** The key word may be followed by more text. */
  lemma CarroPrefixIsCarro()
    ensures NormalizeHeader("Carro X") == CarroColumn
  {
    StripUnpadded("Carro X");
    var l := Lower("Carro X");
    assert l[..5] == "carro" by {
      assert l[0] == 'c' && l[1] == 'a' && l[2] == 'r' && l[3] == 'r' && l[4] == 'o';
    }
    assert OccursAt(l, "carro", 0);
  }

  /** The unaccented spelling `ultimo` is recognised too. */
  lemma UnaccentedUltimoIsUltimoAcesso()
    ensures NormalizeHeader("ultimo acesso") == UltimoAcessoColumn
  {
    var u := "ultimo acesso";
    StripUnpadded(u);
    var l := Lower(u);
    assert l == u by {
      assert l[0] == 'u' && l[1] == 'l' && l[2] == 't' && l[3] == 'i' && l[4] == 'm' && l[5] == 'o';
      assert l[6] == ' ' && l[7] == 'a' && l[8] == 'c' && l[9] == 'e' && l[10] == 's' && l[11] == 's';
      assert l[12] == 'o';
    }
    forall i | 0 <= i <= |l| - 5 ensures !OccursAt(l, "carro", i) {
      assert l[i..i + 5][0] != 'c' || l[i..i + 5][1] != 'a';
    }
    assert OccursAt(l, "ultimo", 0);
  }

  /** A header no rule recognises is kept verbatim. */
  lemma UnknownHeaderIsKept()
    ensures NormalizeHeader("Placa") == "Placa"
  {
    StripUnpadded("Placa");
    var l := Lower("Placa");
    assert l[0] == 'p';
    forall i | 0 <= i <= |l| - 5 ensures !OccursAt(l, "carro", i) {
      assert l[i..i + 5][0] == 'p';
    }
  }
}
