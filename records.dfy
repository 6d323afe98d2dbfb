/**
 * The legal-article record shared by the scrapers (which write it) and the
 * explorer (which reads it). It is a JSON object; a key the object lacks is
 * `None`, since the explorer reads some keys with a default and some without.
 */
module Records {

  datatype Option<+T> = None | Some(value: T)

  datatype Record = Record(source: Option<string>, number: Option<string>, title: Option<string>, text: Option<string>)

  /** The source labels, one per scraped document. */
  const CriminalCodeLabel: string := "Criminal Code of Ukraine"
  const RomeStatuteLabel: string := "Rome Statute"
  const GenevaLabel: string := "Geneva Conventions"

  /** `record['source'] = sourceName`: sets the source key, leaving the other keys alone. */
  function Labelled(r: Record, sourceName: string): (l: Record)
  {
    r.(source := Some(sourceName))
  }
}
