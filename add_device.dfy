/**
 * The "Add Device" dialog: a name form that creates an API key, after which the new key is
 * shown once in place of the form.
 */
module AddDevice {

  import opened Wrappers

  const MinNameLength: nat := 2
  const MaxNameLength: nat := 100

  const NameTooShort: string := "Device name must be at least 2 characters."
  const NameTooLong: string := "Device name must be at most 100 characters."

  /** The form's messages for a name, one per bound it breaks; none when it is accepted. */
  function NameErrors(name: string): seq<string> {
    (if |name| < MinNameLength then [NameTooShort] else [])
    + (if |name| > MaxNameLength then [NameTooLong] else [])
  }

  /**
   * A name is accepted exactly when it has 2 to 100 characters; a shorter one gets the
   * "at least" message, a longer one the "at most" message, and never both.
   */
  lemma NameRule(name: string)
    ensures NameErrors(name) == [] <==> 2 <= |name| <= 100
    ensures |name| < 2 ==> NameErrors(name) == [NameTooShort]
    ensures |name| > 100 ==> NameErrors(name) == [NameTooLong]
  {
  }

  /** The button in the dialog's footer. */
  datatype FooterButton = DoneButton | ConfirmButton

  /** What the dialog's main area shows: the new key, or the name field. */
  datatype MainArea = KeyView(key: string) | NameField

  class AddDeviceDialog {
    var open: bool
    var apiKey: Option<string>
    var name: string

    /** A closed dialog with no key and an empty name. */
    constructor ()
      ensures !open && apiKey == None && name == ""
    {
      open := false;
      apiKey := None;
      name := "";
    }

    /** Opening forgets the key shown last time; closing changes nothing but `open`. */
    method OnOpenChange(value: bool)
      modifies this
      ensures open == value
      ensures apiKey == (if value then None else old(apiKey))
      ensures name == old(name)
      ensures value ==> Main() == NameField && Footer() == ConfirmButton
    {
      if value {
        apiKey := None;
      }
      open := value;
    }

    /** Typing into the name field. */
    method EditName(text: string)
      modifies this
      ensures name == text
      ensures open == old(open) && apiKey == old(apiKey)
    {
      name := text;
    }

    /**
     * Submitting the form. The create call runs only for an accepted name; `created` is the key
     * it returns, `None` when it reports an error. Only a returned key is stored, and then the
     * name is reset; otherwise nothing changes.
     */
    method Submit(created: Option<string>)
      modifies this
      ensures NameErrors(old(name)) == [] && created.Some? ==> apiKey == created && name == ""
      ensures !(NameErrors(old(name)) == [] && created.Some?) ==>
        apiKey == old(apiKey) && name == old(name)
      ensures open == old(open)
      ensures NameErrors(old(name)) == [] && created.Some? && created.value != "" ==>
        Main() == KeyView(created.value) && Footer() == DoneButton
    {
      if NameErrors(name) == [] {
        if created.Some? {
          apiKey := created;
          name := "";
        }
      }
    }

    /** The "Done" button closes the dialog; the key stays until the dialog is opened again. */
    method PressDone()
      modifies this
      ensures !open
      ensures apiKey == old(apiKey) && name == old(name)
    {
      open := false;
    }

    /** The main area: the key, with its warning, while there is a truthy key; else the name field. */
    function Main(): MainArea
      reads this
    {
      match apiKey
      case Some(key) => if key != "" then KeyView(key) else NameField
      case None => NameField
    }

    /** The footer: "Done" while there is a truthy key, else the form's "Confirm". */
    function Footer(): FooterButton
      reads this
    {
      if apiKey == None || apiKey == Some("") then ConfirmButton else DoneButton
    }
  }

  /**
   * The main area and the footer test the key separately, and they agree: the key view, showing
   * the stored key itself, comes exactly with "Done", and both exactly when the key is present
   * and not empty.
   */
  lemma ViewsAgree(d: AddDeviceDialog)
    ensures d.Main().KeyView? <==> d.Footer() == DoneButton
    ensures d.Footer() == DoneButton <==> d.apiKey.Some? && d.apiKey.value != ""
    ensures d.Main().KeyView? ==> d.Main().key == d.apiKey.value
    ensures d.Main() == NameField <==> d.Footer() == ConfirmButton
  {
  }

  /**
   * A whole round: open the dialog, type a name, submit with the key the create call returns,
   * press "Done" and open the dialog again. After the submit the main area shows the key exactly
   * when the name was accepted and the key is not empty; once the dialog is reopened the key is
   * gone and the name field is back.
   */
  method OneRound(typed: string, created: string) returns (afterSubmit: MainArea, afterReopen: MainArea)
    ensures afterSubmit == if 2 <= |typed| <= 100 && created != "" then KeyView(created) else NameField
    ensures afterReopen == NameField
  {
    var d := new AddDeviceDialog();
    d.OnOpenChange(true);
    d.EditName(typed);
    d.Submit(Some(created));
    NameRule(typed);
    afterSubmit := d.Main();
    d.PressDone();
    d.OnOpenChange(true);
    afterReopen := d.Main();
  }
}
