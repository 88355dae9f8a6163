/** The shared string maps that the Go code passes around and adds to. */
module TextSets {

  /** A Go map[string]bool whose values are only ever true. */
  class TextSet {
    var members: set<string>

    constructor ()
      ensures members == {}
    {
      members := {};
    }

    method Add(text: string)
      modifies this
      ensures members == old(members) + {text}
    {
      members := members + {text};
    }
  }
}
