/**
 * The verification-code screen: six one-character inputs whose values are
 * kept in an array that each keystroke replaces with an updated copy.
 */
module CodeEntry {

  const CodeLength: nat := 6

  /** Every cell holds at most one character, as the inputs' `maxLength` allows. */
  predicate AtMostOneChar(cells: seq<string>)
  {
    forall i :: 0 <= i < |cells| ==> |cells[i]| <= 1
  }

  /** Writing a text of at most one character keeps every cell that short. */
  lemma WriteKeepsOneChar(cells: seq<string>, index: nat, text: string)
    requires AtMostOneChar(cells) && index < |cells| && |text| <= 1
    ensures AtMostOneChar(cells[index := text])
  {
  }

  class CodeScreen {
    var code: array<string>

    ghost predicate Valid()
      reads this
    {
      code.Length == CodeLength
    }

    /** `useState(['', '', '', '', '', ''])`. */
    constructor ()
      ensures Valid() && fresh(code)
      ensures code[..] == ["", "", "", "", "", ""]
    {
      code := new string[CodeLength](_ => "");
    }

    /**
     * `handleChangeText`: copies the cells, writes `text` at `index` in the
     * copy and makes the copy the new state. Indices come from mapping over
     * the cells, so they are in range.
     */
    method HandleChangeText(text: string, index: nat)
      requires Valid() && index < code.Length
      modifies this
      ensures Valid() && fresh(code)
      ensures code[..] == old(code[..])[index := text]
      ensures code[index] == text
      ensures forall j :: 0 <= j < CodeLength && j != index ==> code[j] == old(code[j])
      ensures AtMostOneChar(old(code[..])) && |text| <= 1 ==> AtMostOneChar(code[..])
    {
      if AtMostOneChar(code[..]) && |text| <= 1 {
        WriteKeepsOneChar(code[..], index, text);
      }
      var newCode := new string[code.Length](i reads this, code => if 0 <= i < code.Length then code[i] else "");
      newCode[index] := text;
      code := newCode;
    }
  }
}
