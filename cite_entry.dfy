/**
 * `CiteEntry`, `CiteEntry2` and the conversion between them
 * (bioimg_spec/src/rdf/cite_entry.rs).
 */
module CiteEntries {
  import opened Results

  /** `BoundedString<1, 1023>`: text whose length lies in [1, 1023]. */
  type ConfString = s: string | 1 <= |s| <= 1023 witness "-"

  /** `url::Url`, a foreign type; only its text is kept. */
  datatype Url = Url(serialization: string)

  /** A citation with every field present. */
  datatype CiteEntry = CiteEntry(text: ConfString, doi: ConfString, url: Url)

  /** A citation whose DOI and URL may be absent. */
  datatype CiteEntry2 = CiteEntry2(text: ConfString, doi: Option<ConfString>, url: Option<Url>)

  /** `From<CiteEntry> for CiteEntry2`: total; the text is kept and both optional fields are present. */
  function FromCiteEntry(e: CiteEntry): (r: CiteEntry2)
    ensures r.text == e.text
    ensures r.doi == Some(e.doi)
    ensures r.url == Some(e.url)
  {
    CiteEntry2(e.text, Some(e.doi), Some(e.url))
  }

  /** The conversion loses nothing: distinct entries give distinct results. */
  lemma FromCiteEntryInjective(a: CiteEntry, b: CiteEntry)
    ensures FromCiteEntry(a) == FromCiteEntry(b) ==> a == b
  {
  }

  /** The converted entries are exactly those in which both optional fields are present. */
  lemma FromCiteEntryImage(e2: CiteEntry2)
    ensures (exists e :: FromCiteEntry(e) == e2) <==> e2.doi.Some? && e2.url.Some?
  {
    if e2.doi.Some? && e2.url.Some? {
      assert FromCiteEntry(CiteEntry(e2.text, e2.doi.value, e2.url.value)) == e2;
    }
  }
}
