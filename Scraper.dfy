/**
 * The scraper's entry point (`get_monitoramento` in src/scraper.py): download
 * the monitoring page, read the totals, read the device table.
 *
 * The download and the HTML table parser are outside the model: the HTTP
 * outcome arrives as a `Result` (the page text, or the description of the
 * request failure), and the table parser as a function from the page text
 * to the tables it finds.
 */
module Scraper {
  import opened Wrappers
  import opened Text
  import opened Errors
  import opened Resumo
  import opened Tabela

  /** The address `get_monitoramento` downloads when none is given. */
  const DefaultUrl: string := "http://45.71.160.173/monitoramento/"

  /**
   * `fetch_html`: the page text when the request succeeds; any request
   * failure becomes the scraper's own error, naming the address.
   */
  function FetchHtml(url: string, response: Result<string, string>): (r: Result<string, MonitoramentoError>)
    ensures r.Success? <==> response.Success?
    ensures r.Success? ==> r.value == response.value
    ensures r.Failure? ==> r.error == FetchFailed(url, response.error)
  {
    match response
    case Success(text) => Success(text)
    case Failure(cause) => Failure(FetchFailed(url, cause))
  }

  /**
   * `get_monitoramento`: a failed download is reported as is and nothing is
   * parsed; otherwise the totals and the table are both read from the same
   * page, and only a page without any table is an error.
   */
  function GetMonitoramento(url: string, response: Result<string, string>,
                            readHtml: string -> seq<Table>): (r: Result<(Table, Resumo), MonitoramentoError>)
    ensures response.Failure? ==> r == Failure(FetchFailed(url, response.error))
    ensures response.Success? ==> (r.Failure? <==> readHtml(response.value) == [])
    ensures response.Success? && r.Failure? ==> r.error == NoTableFound
    ensures r.Success? ==> && response.Success?
                           && r.value.0 == ParsedTable(readHtml(response.value)).value
                           && r.value.1 == ParseResumo(response.value)
  {
    match FetchHtml(url, response)
    case Failure(e) => Failure(e)
    case Success(html) =>
      var resumo := ParseResumo(html);
      match ParsedTable(readHtml(html))
      case Failure(e) => Failure(e)
      case Success(df) => Success((df, resumo))
  }

  /**
   * A page whose layout changed so that no total label is found still
   * succeeds as long as it has a table: every total is reported as 0.
   */
  lemma DegradedPage(url: string, html: string, readHtml: string -> seq<Table>)
    requires forall i :: !MatchAt(html, i, TotalLabel)
    requires forall i :: !MatchAt(html, i, WorkingLabel)
    requires forall i :: !MatchAt(html, i, NotWorkingLabel)
    requires readHtml(html) != []
    ensures GetMonitoramento(url, Success(html), readHtml).Success?
    ensures GetMonitoramento(url, Success(html), readHtml).value.1 == Resumo(0, 0, 0)
  {
    MissingLabelGivesZero(html);
  }

  /**
   * A table lacking some canonical column is still returned: the missing
   * columns only ever raise a warning.
   */
  lemma MissingColumnsDoNotFail(url: string, html: string, readHtml: string -> seq<Table>)
    requires readHtml(html) != [] && !HasCanonicalColumns(ParsedTable(readHtml(html)).value.columns)
    ensures GetMonitoramento(url, Success(html), readHtml).Success?
  {
  }

  /** The canonical headers survive normalisation unchanged. */
  lemma CanonicalHeaderTable(rows: seq<seq<string>>)
    ensures ParsedTable([Table([CarroColumn, UltimoAcessoColumn, StatusColumn], rows)])
            == Success(Table([CarroColumn, UltimoAcessoColumn, StatusColumn], rows))
  {
    var headers := [CarroColumn, UltimoAcessoColumn, StatusColumn];
    var t := ParsedTable([Table(headers, rows)]).value;
    forall k | 0 <= k < 3 ensures t.columns[k] == headers[k] {
      if k == 0 {
        CarroIsFixed();
      } else if k == 1 {
        UltimoAcessoIsFixed();
      } else {
        StatusIsFixed();
      }
    }
    assert t.columns == headers;
  }

  /** A table with the canonical headers passes the column check: no warning. */
  lemma CanonicalHeadersComplete()
    ensures HasCanonicalColumns([CarroColumn, UltimoAcessoColumn, StatusColumn])
  {
    var headers := [CarroColumn, UltimoAcessoColumn, StatusColumn];
    assert headers[0] in headers && headers[1] in headers && headers[2] in headers;
  }

  /**
   * The page shown in `parse_resumo`'s docstring (totals 117, 34 and 83 on
   * their own lines), followed by a table with the three canonical columns,
   * gives back exactly those totals and that table.
   */
  lemma ExamplePage(url: string, rest: string, readHtml: string -> seq<Table>, rows: seq<seq<string>>)
    requires var html := Line(TotalText, " ", "117") + (Line(WorkingText, " ", "34")
                         + (Line(NotWorkingText(true), " ", "83") + rest));
             readHtml(html) == [Table([CarroColumn, UltimoAcessoColumn, StatusColumn], rows)]
    ensures var html := Line(TotalText, " ", "117") + (Line(WorkingText, " ", "34")
                        + (Line(NotWorkingText(true), " ", "83") + rest));
            GetMonitoramento(url, Success(html), readHtml)
            == Success((Table([CarroColumn, UltimoAcessoColumn, StatusColumn], rows), Resumo(117, 34, 83)))
  {
    var html := Line(TotalText, " ", "117") + (Line(WorkingText, " ", "34")
                + (Line(NotWorkingText(true), " ", "83") + rest));
    assert ParseResumo(html) == Resumo(117, 34, 83) by {
      ThreeLinePage(" ", "117", " ", "34", " ", "83", true, rest);
      ExampleDigits();
    }
    CanonicalHeaderTable(rows);
  }

  lemma ExampleDigits()
    ensures DigitsValue("117") == 117 && DigitsValue("34") == 34 && DigitsValue("83") == 83
  {
    assert "117"[..2] == "11" && "11"[..1] == "1" && "1"[..0] == [];
    assert "34"[..1] == "3" && "3"[..0] == [];
    assert "83"[..1] == "8" && "8"[..0] == [];
  }
}
