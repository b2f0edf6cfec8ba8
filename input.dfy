/** The single-line text field of the terminal interface: a value, a cursor
    that always stays within it, and the editing keys that move the cursor or
    change the value at the cursor. Text is a sequence of characters, one
    position per character. */
module Input {

  /** The bullet shown in place of each character of a password. */
  const Bullet: char := '\U{2022}'

  /** `String::insert`: `c` placed before position `i`. */
  function InsertAt(s: string, i: nat, c: char): (r: string)
    requires i <= |s|
    ensures |r| == |s| + 1
    ensures r[i] == c
    ensures forall j :: 0 <= j < i ==> r[j] == s[j]
    ensures forall j :: i < j < |r| ==> r[j] == s[j - 1]
  {
    s[..i] + [c] + s[i..]
  }

  /** `String::remove`: the character at position `i` taken out. */
  function RemoveAt(s: string, i: nat): (r: string)
    requires i < |s|
    ensures |r| == |s| - 1
    ensures forall j :: 0 <= j < i ==> r[j] == s[j]
    ensures forall j :: i <= j < |r| ==> r[j] == s[j + 1]
  {
    s[..i] + s[i + 1..]
  }

  /** Removing what was just inserted gives the text back. */
  lemma RemoveInsert(s: string, i: nat, c: char)
    requires i <= |s|
    ensures RemoveAt(InsertAt(s, i, c), i) == s
  {
    var r := RemoveAt(InsertAt(s, i, c), i);
    assert forall j :: 0 <= j < |s| ==> r[j] == s[j];
  }

  /** Putting a removed character back where it was gives the text back. */
  lemma InsertRemove(s: string, i: nat)
    requires i < |s|
    ensures InsertAt(RemoveAt(s, i), i, s[i]) == s
  {
    var r := InsertAt(RemoveAt(s, i), i, s[i]);
    assert forall j :: 0 <= j < |s| ==> r[j] == s[j];
  }

  /** `"•".repeat(n)`. */
  function Mask(n: nat): (m: string)
    ensures |m| == n
    ensures forall j :: 0 <= j < n ==> m[j] == Bullet
  {
    if n == 0 then [] else Mask(n - 1) + [Bullet]
  }

  /** `InputField`. */
  class InputField {
    var labelText: string
    var value: string
    var isPassword: bool
    var isActive: bool
    var cursorPosition: nat

    /** The cursor sits on a character of the value or just after it. */
    predicate Valid()
      reads this
    {
      cursorPosition <= |value|
    }

    /** `InputField::new` (`labelText` is the field `label`): empty, plain, inactive, cursor at the start. */
    constructor (labelText: string)
      ensures Valid()
      ensures this.labelText == labelText && value == [] && !isPassword && !isActive && cursorPosition == 0
    {
      this.labelText := labelText;
      value := [];
      isPassword := false;
      isActive := false;
      cursorPosition := 0;
    }

    /** `with_password`: the field masks its value from now on. */
    method WithPassword()
      modifies this
      ensures Valid() <==> old(Valid())
      ensures isPassword
      ensures labelText == old(labelText) && value == old(value) && isActive == old(isActive)
      ensures cursorPosition == old(cursorPosition)
    {
      isPassword := true;
    }

    /** `with_value`: the value replaced, the cursor after its end. */
    method WithValue(v: string)
      modifies this
      ensures Valid()
      ensures value == v && cursorPosition == |v|
      ensures labelText == old(labelText) && isPassword == old(isPassword) && isActive == old(isActive)
    {
      value := v;
      cursorPosition := |value|;
    }

    /** `insert_char`: `c` typed at the cursor, which moves past it. */
    method InsertChar(c: char)
      requires Valid()
      modifies this
      ensures Valid()
      ensures value == InsertAt(old(value), old(cursorPosition), c)
      ensures cursorPosition == old(cursorPosition) + 1
      ensures labelText == old(labelText) && isPassword == old(isPassword) && isActive == old(isActive)
    {
      value := InsertAt(value, cursorPosition, c);
      cursorPosition := cursorPosition + 1;
    }

    /** `delete_char`: the character under the cursor removed; at the end of
        the value nothing happens. The cursor does not move. */
    method DeleteChar()
      requires Valid()
      modifies this
      ensures Valid()
      ensures old(cursorPosition) < |old(value)| ==> value == RemoveAt(old(value), old(cursorPosition))
      ensures old(cursorPosition) == |old(value)| ==> value == old(value)
      ensures cursorPosition == old(cursorPosition)
      ensures labelText == old(labelText) && isPassword == old(isPassword) && isActive == old(isActive)
    {
      if cursorPosition < |value| {
        value := RemoveAt(value, cursorPosition);
      }
    }

    /** `backspace`: the character before the cursor removed and the cursor
        moved back onto its place; at the start nothing happens. */
    method Backspace()
      requires Valid()
      modifies this
      ensures Valid()
      ensures old(cursorPosition) > 0 ==>
                cursorPosition == old(cursorPosition) - 1 && value == RemoveAt(old(value), cursorPosition)
      ensures old(cursorPosition) == 0 ==> cursorPosition == 0 && value == old(value)
      ensures labelText == old(labelText) && isPassword == old(isPassword) && isActive == old(isActive)
    {
      if cursorPosition > 0 {
        cursorPosition := cursorPosition - 1;
        value := RemoveAt(value, cursorPosition);
      }
    }

    /** `move_cursor_left`: one step back, stopping at the start. */
    method MoveCursorLeft()
      requires Valid()
      modifies this
      ensures Valid()
      ensures cursorPosition == if old(cursorPosition) > 0 then old(cursorPosition) - 1 else 0
      ensures value == old(value)
      ensures labelText == old(labelText) && isPassword == old(isPassword) && isActive == old(isActive)
    {
      if cursorPosition > 0 {
        cursorPosition := cursorPosition - 1;
      }
    }

    /** `move_cursor_right`: one step forward, stopping after the end. */
    method MoveCursorRight()
      requires Valid()
      modifies this
      ensures Valid()
      ensures cursorPosition == if old(cursorPosition) < |value| then old(cursorPosition) + 1 else |value|
      ensures value == old(value)
      ensures labelText == old(labelText) && isPassword == old(isPassword) && isActive == old(isActive)
    {
      if cursorPosition < |value| {
        cursorPosition := cursorPosition + 1;
      }
    }

    /** `move_cursor_start`. */
    method MoveCursorStart()
      requires Valid()
      modifies this
      ensures Valid()
      ensures cursorPosition == 0 && value == old(value)
      ensures labelText == old(labelText) && isPassword == old(isPassword) && isActive == old(isActive)
    {
      cursorPosition := 0;
    }

    /** `move_cursor_end`. */
    method MoveCursorEnd()
      requires Valid()
      modifies this
      ensures Valid()
      ensures cursorPosition == |value| && value == old(value)
      ensures labelText == old(labelText) && isPassword == old(isPassword) && isActive == old(isActive)
    {
      cursorPosition := |value|;
    }

    /** `clear`: empty value, cursor at the start. */
    method Clear()
      modifies this
      ensures Valid()
      ensures value == [] && cursorPosition == 0
      ensures labelText == old(labelText) && isPassword == old(isPassword) && isActive == old(isActive)
    {
      value := [];
      cursorPosition := 0;
    }

    /** `display_value`: a password shows one bullet per character and
        nothing of its content; any other value shows as it is. */
    function DisplayValue(): (d: string)
      reads this
      ensures |d| == |value|
      ensures isPassword ==> forall j :: 0 <= j < |d| ==> d[j] == Bullet
      ensures !isPassword ==> d == value
    {
      if isPassword then Mask(|value|) else value
    }
  }
}
