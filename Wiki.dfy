/** The dump record that the XML reader hands to every feeder (bliki's WikiArticle). */
module Wiki {
  import opened Wrappers

  /**
   * One page of the dump: its id and title, its raw markup (null in the
   * dump becomes None) and the two namespace flags the feeders test.
   */
  datatype Article = Article(
    id: string,
    title: string,
    text: Option<string>,
    isMain: bool,
    isCategory: bool)

  /** `StringUtils.isEmpty(page.getText())`: null or "". */
  predicate TextIsEmpty(page: Article) {
    page.text.None? || page.text.value == ""
  }
}
