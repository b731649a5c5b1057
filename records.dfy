/**
 * The records the RSVP form works with: the draft form, its per-guest rows,
 * and the entry that a submission saves and the CSV export reads back.
 */
module Records {
  import opened Wrappers

  /** One row of the guest-details list: `{ name, dietary }`. */
  datatype Guest = Guest(name: string, dietary: string) {
    function Get(key: GuestField): string {
      match key
      case Name => name
      case Dietary => dietary
    }

    /** `{ ...guest, [key]: value }` */
    function Set(key: GuestField, value: string): Guest {
      match key
      case Name => this.(name := value)
      case Dietary => this.(dietary := value)
    }
  }

  datatype GuestField = Name | Dietary

  /** The padding row the resize appends: `{ name: "", dietary: "" }`. */
  const EmptyGuest := Guest("", "")

  /**
   * The form state. `guests` is the count as `Number` reads the text the user
   * typed: `None` stands for text that is not a number (`NaN`), and the empty
   * text reads as `Some(0)`. `dietary` is kept for the export's column but no
   * input ever sets it.
   */
  datatype Form = Form(
    fullName: string,
    email: string,
    attending: string,
    guests: Option<int>,
    dietary: string,
    message: string)
  {
    /** `setForm(f => ({ ...f, [key]: value }))` for the text inputs. */
    function Set(key: FormField, value: string): Form {
      match key
      case FullName => this.(fullName := value)
      case Email => this.(email := value)
      case Attending => this.(attending := value)
      case Message => this.(message := value)
    }
  }

  /** The text inputs of the form; the guest count has its own operation. */
  datatype FormField = FullName | Email | Attending | Message

  /** The state the component starts in: attending "yes", one guest. */
  const InitialForm := Form("", "", "yes", Some(1), "", "")

  /**
   * A guest row as it is read back from the saved log. A field that is
   * missing (or a row that is `null`, which reads like `{}`) is `None`.
   */
  datatype StoredGuest = StoredGuest(name: Option<string>, dietary: Option<string>)

  /**
   * A saved submission. Each field may be missing from the stored object;
   * `guests` is the numeric count and `guestsDetails` is `None` when the
   * stored value is missing or not an array.
   */
  datatype Entry = Entry(
    submittedAt: Option<string>,
    fullName: Option<string>,
    email: Option<string>,
    attending: Option<string>,
    guests: Option<int>,
    dietary: Option<string>,
    message: Option<string>,
    userAgent: Option<string>,
    guestsDetails: Option<seq<StoredGuest>>)

  function Stored(g: Guest): StoredGuest {
    StoredGuest(Some(g.name), Some(g.dietary))
  }

  /**
   * The payload `handleSubmit` saves: the form's fields, the numeric count,
   * the guest list as it stands, the submission time and the browser string.
   */
  function Payload(form: Form, guestsDetails: seq<Guest>, submittedAt: string, userAgent: string): Entry {
    Entry(
      Some(submittedAt), Some(form.fullName), Some(form.email), Some(form.attending),
      form.guests, Some(form.dietary), Some(form.message), Some(userAgent),
      Some(seq(|guestsDetails|, k requires 0 <= k < |guestsDetails| => Stored(guestsDetails[k]))))
  }
}
