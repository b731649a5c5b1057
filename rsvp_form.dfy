/**
 * The RSVP component's state and the handlers that change it: the draft
 * form, the guest-details list kept in step with the count, and the log of
 * submissions saved on the device, which the export reads.
 */
module RsvpForm {
  import opened Wrappers
  import opened Records
  import GuestList
  import Validation
  import Csv

  class Session {
    var form: Form
    var guestsDetails: seq<Guest>
    /** The saved log on this device, oldest first. */
    var saved: seq<Entry>

    /**
     * The guest list has one row per guest the count asks for, and no input
     * sets the general dietary field.
     */
    ghost predicate Valid()
      reads this
    {
      |guestsDetails| == GuestList.GuestSlots(form.guests)
      && form.dietary == ""
    }

    /** The component mounts over the log the device already holds. */
    constructor (stored: seq<Entry>)
      ensures Valid()
      ensures form == InitialForm && guestsDetails == [EmptyGuest]
      ensures saved == stored
    {
      form := InitialForm;
      guestsDetails := [EmptyGuest];
      saved := stored;
    }

    /** `handleChange` for the name, email, attendance and message inputs. */
    method SetField(key: FormField, value: string)
      requires Valid()
      modifies this
      ensures Valid()
      ensures form == old(form).Set(key, value)
      ensures form.guests == old(form.guests)
      ensures guestsDetails == old(guestsDetails)
      ensures saved == old(saved)
    {
      form := form.Set(key, value);
    }

    /**
     * `handleChange("guests", …)` followed by the effect that resizes the
     * guest list: rows up to the new count keep what was typed into them,
     * and new rows start empty.
     */
    method SetGuests(count: Option<int>)
      requires Valid()
      modifies this
      ensures Valid()
      ensures form == old(form).(guests := count)
      ensures |guestsDetails| == GuestList.GuestSlots(count)
      ensures forall k :: 0 <= k < |guestsDetails| && k < |old(guestsDetails)| ==> guestsDetails[k] == old(guestsDetails)[k]
      ensures forall k :: |old(guestsDetails)| <= k < |guestsDetails| ==> guestsDetails[k] == EmptyGuest
      ensures saved == old(saved)
    {
      form := form.(guests := count);
      guestsDetails := GuestList.Resize(guestsDetails, count);
    }

    /** `handleGuestChange`: one field of one guest row changes, nothing else. */
    method SetGuestField(i: nat, key: GuestField, value: string)
      requires Valid()
      requires i < |guestsDetails|
      modifies this
      ensures Valid()
      ensures |guestsDetails| == |old(guestsDetails)|
      ensures guestsDetails[i] == old(guestsDetails)[i].Set(key, value)
      ensures forall k :: 0 <= k < |guestsDetails| && k != i ==> guestsDetails[k] == old(guestsDetails)[k]
      ensures form == old(form) && saved == old(saved)
    {
      guestsDetails := GuestList.GuestChanged(guestsDetails, i, key, value);
    }

    /**
     * `handleSubmit`: a form that fails validation reports the first
     * problem and saves nothing; otherwise the payload (the form, the guest
     * list as it stands, the time and the browser string, both parameters)
     * is appended to the log. The list is sent untruncated, but an accepted
     * form's list already has one row per counted guest; and the saved
     * entry's dietary column is empty, since no input sets that field.
     */
    method Submit(submittedAt: string, userAgent: string) returns (problem: Option<Validation.ValidationError>)
      requires Valid()
      modifies this
      ensures Valid()
      ensures problem == Validation.FirstProblem(form, guestsDetails)
      ensures problem.None? <==> Validation.Acceptable(form, guestsDetails)
      ensures form == old(form) && guestsDetails == old(guestsDetails)
      ensures problem.Some? ==> saved == old(saved)
      ensures problem.None? ==> saved == old(saved) + [Payload(form, guestsDetails, submittedAt, userAgent)]
      ensures problem.None? ==> form.guests.Some? && |guestsDetails| == form.guests.value
      ensures problem.None? ==> Csv.OrEmpty(saved[|saved| - 1].dietary) == ""
    {
      problem := Validation.Validate(form, guestsDetails);
      if problem.None? {
        saved := saved + [Payload(form, guestsDetails, submittedAt, userAgent)];
      }
    }

    /**
     * `exportCSV`: the file holds the log as `toCSV` writes it, and reading
     * it back gives the header and one row per saved entry, in order.
     */
    method ExportCsv() returns (csv: string)
      ensures csv == Csv.CsvText(saved)
      ensures Csv.ReadDocument(csv) == Csv.Table(saved)
    {
      csv := Csv.ToCsv(saved);
      Csv.CsvRoundTrip(saved);
    }
  }
}
