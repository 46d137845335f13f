/** The broker search of the deal form (components/broker-search.tsx): the e-mail field is
    cleaned as it is typed, a valid address schedules a debounced search, the Search button or
    Enter searches at once, and a "Create New Broker" button shows when no broker was found.
    Timing is outside the model: a scheduled search is pending until `DebounceFires` runs it. */
module BrokerSearch {
  import opened Wrappers
  import opened Text
  import opened SvelteUtils
  import opened DealUtils
  import opened Notifications

  /** `validateEmail`: the regular expression `^[^\s@]+@[^\s@]+\.[^\s@]+$`, the very pattern of
      `isValidEmail` in the SvelteKit utilities, so the two are one predicate. */
  predicate ValidateEmail(email: string) {
    IsValidEmail(email)
  }

  const Mailto := "mailto:"

  /** `formatEmail`: a "mailto:" at the very start is dropped, once, then the result is trimmed. */
  function FormatEmail(email: string): (r: string)
    ensures r == [] || (!IsSpace(r[0]) && !IsSpace(r[|r| - 1]))
    ensures |r| <= |email|
  {
    Trim(if StartsWith(email, Mailto) then email[|Mailto|..] else email)
  }

  /** An address typed without white space and without the prefix is kept as it is. */
  lemma FormatEmailKeepsPlain(email: string)
    requires NoSpace(email) && !StartsWith(email, Mailto)
    ensures FormatEmail(email) == email
  {
  }

  /** The prefix and the white space around the address go. */
  lemma FormatEmailStripsPrefix(address: string)
    ensures FormatEmail(Mailto + address) == Trim(address)
  {
    PrefixOfConcat(Mailto, address);
  }

  lemma PrefixOfConcat(p: string, x: string)
    ensures StartsWith(p + x, p) && (p + x)[|p|..] == x
  {
    assert (p + x)[..|p|] == p;
  }

  /** Only the first "mailto:" goes: a doubled prefix leaves one in the result. */
  lemma FormatEmailStripsOnce(address: string)
    ensures StartsWith(FormatEmail(Mailto + (Mailto + address)), Mailto)
  {
    FormatEmailStripsPrefix(Mailto + address);
    TrimKeepsPrefix(Mailto, address);
  }

  /** The prefix goes only at the very start: behind white space it stays. */
  lemma FormatEmailOnlyAtStart(address: string)
    ensures StartsWith(FormatEmail([' '] + (Mailto + address)), Mailto)
  {
    var spaced := [' '] + (Mailto + address);
    assert !StartsWith(spaced, Mailto) by {
      assert spaced[0] == ' ';
    }
    TrimAfterSpace(' ', Mailto + address);
    TrimKeepsPrefix(Mailto, address);
  }

  /** Trimming keeps a prefix that starts and ends with characters other than white space. */
  lemma TrimKeepsPrefix(p: string, x: string)
    requires p != [] && !IsSpace(p[0]) && !IsSpace(p[|p| - 1])
    ensures StartsWith(Trim(p + x), p)
  {
    assert (p + x)[0] == p[0];
    assert TrimStart(p + x) == p + x;
    TrimEndKeepsPrefix(p, x);
  }

  lemma {:induction false} TrimEndKeepsPrefix(p: string, x: string)
    requires p != [] && !IsSpace(p[|p| - 1])
    ensures StartsWith(TrimEnd(p + x), p)
  {
    if x == [] {
      assert p + x == p;
    } else if IsSpace(x[|x| - 1]) {
      assert (p + x)[..|p + x| - 1] == p + x[..|x| - 1];
      TrimEndKeepsPrefix(p, x[..|x| - 1]);
    } else {
      assert (p + x)[..|p|] == p;
    }
  }

  predicate PendingValid(pending: Option<string>) {
    pending.Some? ==> ValidateEmail(pending.value)
  }

  predicate AllValid(emails: seq<string>) {
    forall i :: 0 <= i < |emails| ==> ValidateEmail(emails[i])
  }

  const InvalidEmailMessage := "Please enter a valid email address"
  const NamesMessage := "Please enter both first and last name"
  const CreatedMessage := "Broker created successfully!"
  const CreateFailedMessage := "Failed to create broker"

  class BrokerSearchState {
    /** The form's `broker.*` values the component watches. */
    var email: string
    var firstName: string
    var lastName: string
    var hubspotId: Option<string>
    /** The `isSearching` property the parent passes in. */
    var isSearching: bool
    var isTyping: bool
    /** The e-mail a debounced search will run on, if one is scheduled. */
    var pending: Option<string>
    /** The e-mails `onSearch` was called with, in order. */
    var searches: seq<string>
    var toast: Option<Toast>

    /** Only valid e-mails are ever scheduled or searched for. */
    ghost predicate Valid()
      reads this
    {
      PendingValid(pending) && AllValid(searches)
    }

    constructor (email: string, firstName: string, lastName: string, hubspotId: Option<string>, isSearching: bool)
      ensures this.email == email && this.firstName == firstName && this.lastName == lastName
      ensures this.hubspotId == hubspotId && this.isSearching == isSearching
      ensures !isTyping && pending == None && searches == [] && toast == None
      ensures Valid()
    {
      this.email, this.firstName, this.lastName, this.hubspotId := email, firstName, lastName, hubspotId;
      this.isSearching := isSearching;
      isTyping := false;
      pending := None;
      searches := [];
      toast := None;
    }

    /** `showCreateButton`: an e-mail, no HubSpot id, no search running, not typing, and both
        names. */
    predicate ShowCreateButton()
      reads this
    {
      email != "" && !PresentText(hubspotId) && !isSearching && !isTyping && firstName != "" && lastName != ""
    }

    /** `handleSearch(e)`: only a valid e-mail is searched for, and it ends the typing state. */
    method HandleSearch(e: string)
      requires Valid()
      modifies this
      ensures ValidateEmail(e) ==> searches == old(searches) + [e] && !isTyping
      ensures !ValidateEmail(e) ==> searches == old(searches) && isTyping == old(isTyping)
      ensures email == old(email) && firstName == old(firstName) && lastName == old(lastName)
      ensures hubspotId == old(hubspotId) && isSearching == old(isSearching)
      ensures pending == old(pending) && toast == old(toast)
      ensures Valid()
    {
      if ValidateEmail(e) {
        isTyping := false;
        searches := searches + [e];
      }
    }

    /** `handleEmailChange`: the cleaned text is stored and the user is typing; a search is
        scheduled, replacing any earlier one, only for a valid e-mail while no search runs.
        Otherwise an earlier scheduled search stays scheduled. */
    method HandleEmailChange(value: string)
      requires Valid()
      modifies this
      ensures email == FormatEmail(value) && isTyping
      ensures pending == if ValidateEmail(email) && !isSearching then Some(email) else old(pending)
      ensures searches == old(searches) && toast == old(toast)
      ensures firstName == old(firstName) && lastName == old(lastName)
      ensures hubspotId == old(hubspotId) && isSearching == old(isSearching)
      ensures !ShowCreateButton()
      ensures Valid()
    {
      StoreEmail(FormatEmail(value));
    }

    /** The rest of `handleEmailChange`, once the text is cleaned. */
    method StoreEmail(formatted: string)
      requires Valid()
      modifies this
      ensures email == formatted && isTyping
      ensures pending == if ValidateEmail(formatted) && !isSearching then Some(formatted) else old(pending)
      ensures searches == old(searches) && toast == old(toast)
      ensures firstName == old(firstName) && lastName == old(lastName)
      ensures hubspotId == old(hubspotId) && isSearching == old(isSearching)
      ensures !ShowCreateButton()
      ensures Valid()
    {
      isTyping := true;
      email := formatted;
      if ValidateEmail(formatted) && !isSearching {
        pending := Some(formatted);
      }
    }

    /** The debounce delay ends: the scheduled search, if any, runs. */
    method DebounceFires()
      requires Valid()
      modifies this
      ensures pending == None
      ensures old(pending).Some? ==> searches == old(searches) + [old(pending).value] && !isTyping
      ensures old(pending).None? ==> searches == old(searches) && isTyping == old(isTyping)
      ensures email == old(email) && firstName == old(firstName) && lastName == old(lastName)
      ensures hubspotId == old(hubspotId) && isSearching == old(isSearching) && toast == old(toast)
      ensures Valid()
    {
      if pending.Some? {
        var e := pending.value;
        pending := None;
        HandleSearch(e);
      }
    }

    /** `handleManualSearch`: an invalid e-mail only shows an error; a valid one cancels the
        scheduled search and is searched for at once. */
    method HandleManualSearch()
      requires Valid()
      modifies this
      ensures !ValidateEmail(email) ==>
        toast == Some(Toast(false, InvalidEmailMessage)) && searches == old(searches)
        && pending == old(pending) && isTyping == old(isTyping)
      ensures ValidateEmail(email) ==>
        searches == old(searches) + [email] && pending == None && !isTyping && toast == old(toast)
      ensures email == old(email) && firstName == old(firstName) && lastName == old(lastName)
      ensures hubspotId == old(hubspotId) && isSearching == old(isSearching)
      ensures Valid()
    {
      if !ValidateEmail(email) {
        toast := Some(Toast(false, InvalidEmailMessage));
        return;
      }
      pending := None;
      isTyping := false;
      HandleSearch(email);
    }

    /** `handleCreateBroker`: refused without both names; otherwise the form's validation of the
        two names runs and a success toast shows, or a failure toast when it throws. The button
        that calls it shows only with both names, so it is never refused from there. */
    method HandleCreateBroker(triggerThrows: bool)
      modifies this
      ensures firstName == "" || lastName == "" ==> toast == Some(Toast(false, NamesMessage))
      ensures firstName != "" && lastName != "" ==>
        toast == Some(if triggerThrows then Toast(false, CreateFailedMessage) else Toast(true, CreatedMessage))
      ensures old(ShowCreateButton()) ==> toast != Some(Toast(false, NamesMessage))
      ensures email == old(email) && firstName == old(firstName) && lastName == old(lastName)
      ensures hubspotId == old(hubspotId) && isSearching == old(isSearching) && isTyping == old(isTyping)
      ensures pending == old(pending) && searches == old(searches)
    {
      if firstName == "" || lastName == "" {
        toast := Some(Toast(false, NamesMessage));
        return;
      }
      if triggerThrows {
        toast := Some(Toast(false, CreateFailedMessage));
      } else {
        toast := Some(Toast(true, CreatedMessage));
      }
    }
  }

  /** Typing an address, prefix and white space included, and letting the delay end searches
      for the cleaned address exactly when it is valid; either way the create button is hidden
      until then only while the user types. */
  method TypeAndWait(value: string) returns (searched: seq<string>, typing: bool)
    ensures ValidateEmail(FormatEmail(value)) ==> searched == [FormatEmail(value)] && !typing
    ensures !ValidateEmail(FormatEmail(value)) ==> searched == [] && typing
  {
    var search := new BrokerSearchState("", "", "", None, false);
    search.HandleEmailChange(value);
    search.DebounceFires();
    searched := search.searches;
    typing := search.isTyping;
  }
}
