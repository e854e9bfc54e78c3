/** The browser session, reduced to what the scraper observes of it. */
module Browser {
  import opened Wrappers
  import opened Dom

  /** The outcome of `driver.get(url)` followed by waiting for `<body>`:
      the rendered page and whether `<body>` appeared before the wait
      expired, or the error `get` raised. */
  datatype Visit =
    | Loaded(doc: Node, bodyPresent: bool)
    | Failed(message: string)

  /** A session: the error raised while starting the driver, if any, and
      what each navigation yields. */
  datatype Session = Session(startError: Option<string>, browse: string -> Visit)
}
