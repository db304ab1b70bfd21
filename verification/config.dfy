/** The configuration record of selpg and the values its command-line flags
    take when they are not given. */
module Config {

  /** Value of `-s` and `-e` when the flag is absent: it marks "not given". */
  const Unset: int := -1

  /** Value of `-l` when the flag is absent. */
  const DefaultPageLen: int := 72

  /** The parsed command line: page range, optional input file, optional
      destination command, lines per page and the form-feed flag. */
  datatype SelpgArgs = SelpgArgs(
    startPage: int,
    endPage: int,
    inputFilename: string,
    dest: string,
    pageLen: int,
    formFeedDelimited: bool
  )

  /** The record as flag parsing leaves it when no flag is given: neither
      page is a valid page, the page length is usable as a divisor, and
      output goes to standard output. */
  function FlagDefaults(): (a: SelpgArgs)
    ensures a.startPage < 0 && a.endPage < 0
    ensures a.pageLen > 0
    ensures a.dest == "" && !a.formFeedDelimited
  {
    SelpgArgs(Unset, Unset, "", "", DefaultPageLen, false)
  }
}
