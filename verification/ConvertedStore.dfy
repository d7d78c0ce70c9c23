/** The `useConverted` store: one session flag saying that a conversion batch
    has finished and the download page may export. */
module ConvertedStore {

  class Converted {
    var converted: bool

    /** The flag starts false. */
    constructor ()
      ensures !converted
    {
      converted := false;
    }

    /** `setConverted`: the new value does not depend on the old one, so the
        last write wins and writing the same value twice equals writing it once. */
    method SetConverted(b: bool)
      modifies this
      ensures converted == b
    {
      converted := b;
    }
  }
}
