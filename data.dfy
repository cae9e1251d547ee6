/** The `Post` record of data.py. */
module Data {
  import opened Wrappers
  import opened Dates

  /**
   * One published article. `title`, `tags` and `html` hold rendered HTML;
   * `tags` is annotated as a list of strings in data.py but always holds
   * the rendered tag links, a single string.
   */
  datatype Post = Post(
    slug: string,
    title: string,
    createDate: DateTime,
    updateDate: DateTime,
    summary: Option<string>,
    coverImage: Option<string>,
    tags: string,
    category: Option<string>,
    subCategory: Option<string>,
    html: string,
    rawMarkdown: string,
    graphmlIncluded: bool,
    graphmlFile: Option<string>,
    chartIncluded: bool)
}
