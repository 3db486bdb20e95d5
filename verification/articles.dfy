/**
 * Article records as the news provider delivers them: a title, an optional
 * description and content, a url and a `source` object with a `name`.
 * Every field may be absent or `null`; `source` may even be a bare string.
 */
module Articles {
  import opened Json

  datatype SourceField =
    | SourceMissing            // no `source` key
    | SourceNull               // `"source": null`
    | SourceDict(name: OptStr) // `"source": {"name": ...}`
    | SourceText(raw: string)  // `"source": "..."`, not a dict

  datatype Article = Article(
    title: OptStr,
    description: OptStr,
    content: OptStr,
    url: OptStr,
    source: SourceField)
}
