/** The tag store of one map element: an ordered list of key/value pairs, changed in place. */
module OsmElements {

  datatype Tag = Tag(key: string, value: string)

  /** A tag whose key and value were both cleared: consumed for good. */
  const Consumed: Tag := Tag("", "")

  class OsmElement {
    var tags: seq<Tag>

    constructor (initial: seq<Tag>)
      ensures tags == initial
    {
      tags := initial;
    }

    /** Appends a tag at the end of the list. */
    method AddTag(k: string, v: string)
      modifies this
      ensures tags == old(tags) + [Tag(k, v)]
    {
      tags := tags + [Tag(k, v)];
    }
  }
}
