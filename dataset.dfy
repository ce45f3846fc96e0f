/** A row of the evaluation sample `evaluation_sample_10000.csv`, which both the
    corpus-embedding script and the evaluation script read. */
module Dataset {

  import opened Wrappers

  /** One judged (query, product) pair. The text columns are `None` where the
      CSV cell is empty (pandas reads it as NaN). `features` and `description`
      hold the text of a Python list literal; `details` the text of a dict
      literal. The query `"irrelevant"` marks a product judged relevant to no
      query. */
  datatype Row = Row(
    query: string,
    parentAsin: string,
    title: Option<string>,
    features: Option<string>,
    description: Option<string>,
    details: Option<string>)
}
