/** Go's `strings.Builder`, as the assembler uses it. */
module Builders {
  /** A `strings.Builder`: text written piece by piece and reset. */
  class Builder {
    var text: string

    constructor ()
      ensures text == ""
    {
      text := "";
    }

    /** `Builder.Len()`, in bytes. */
    function Len(): nat
      reads this
    {
      |text|
    }

    method WriteString(s: string)
      modifies this
      ensures text == old(text) + s
    {
      text := text + s;
    }

    method Reset()
      modifies this
      ensures text == ""
    {
      text := "";
    }
  }
}
