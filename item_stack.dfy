/** The item stack that MaterialData converts to. Its class is not part of
    this model; only the three fields that MaterialData assigns are kept. */
module ItemStacks {
  import opened JavaLang

  class ItemStack {
    var itemType: StrRef
    var amount: Int32
    var meta: Byte

    /** A blank stack. No contract promises its initial field values: every
        caller in this model overwrites all three. */
    constructor ()
    {
    }
  }
}
