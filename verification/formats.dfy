/** Formats: the per-topic templates, and their merge on top of the default format
    (mqttnotifier.py, `DEFAULT_FORMAT` and `DEFAULT_FORMAT | fmt`). */
module Formats {

  /** A format maps a field name ("title", "body") to a template string. */
  type Format = map<string, string>

  const TitleKey: string := "title"
  const BodyKey: string := "body"

  /** The base every resolved format is merged onto. */
  const DefaultFormat: Format := map[TitleKey := "{{title}}", BodyKey := "{{body}}"]

  /** Right-biased union with the default: every key the override sets keeps the
      override's value, every other key comes from the default. */
  function Merge(override: Format): (fmt: Format)
    ensures fmt.Keys == DefaultFormat.Keys + override.Keys
    ensures forall k :: k in override ==> fmt[k] == override[k]
    ensures forall k :: k in DefaultFormat && k !in override ==> fmt[k] == DefaultFormat[k]
    ensures TitleKey in fmt && BodyKey in fmt
  {
    DefaultFormat + override
  }

  /** Merging an already merged format with the default again changes nothing. */
  lemma MergeIdempotent(override: Format)
    ensures Merge(Merge(override)) == Merge(override)
  {
  }

  /** With nothing to override, the merge is the default format itself. */
  lemma MergeNothing()
    ensures Merge(map[]) == DefaultFormat
    ensures Merge(map[])[TitleKey] == "{{title}}" && Merge(map[])[BodyKey] == "{{body}}"
  {
  }
}
