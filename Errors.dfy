/** The single error kind of the scraper (`MonitoramentoError` in src/scraper.py). */
module Errors {

  datatype MonitoramentoError =
    | FetchFailed(url: string, cause: string)  // the page could not be downloaded
    | NoTableFound                             // the page holds no HTML table
}
