/**
 * The exceptions that can leave a scrape routine: the three the project
 * declares and the built-in ones its code can raise on unexpected pages.
 */
module Exceptions {
  import Soup

  datatype ScrapeError =
    /** `ParserFindTagException`: `find_tag` found no element for the filter. */
    | ParserFindTag(filter: Soup.Filter)
      /** `ParsingError`: a page lacks the section a routine depends on. */
    | Parsing(message: string)
      /** `RequestError`: the HTTP request for the URL failed. */
    | Request(url: string)
      /** `RuntimeError`, the one kind the PEP loop catches. */
    | Runtime(message: string)
      /** `IndexError`: a table row has fewer cells than the code indexes. */
    | IndexOutOfRange
      /** `TypeError` or `KeyError` from `tag['href']` on a missing link or attribute. */
    | MissingHref
}
