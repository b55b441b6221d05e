/** The password-reset part of the user menu: the list of distinct outlet
    e-mail addresses offered as the reset target, whether a choice is shown,
    and which address is selected when the confirmation dialog opens. */
module UserDropdownMenu {
  import opened Wrappers
  import opened JsString

  /** An element of the outlet list; `email` is None when the element is null
      or its `email` is not a string. */
  datatype Outlet = Outlet(email: Option<string>)

  /** The `outlets` value of the application data: falsy, a single truthy
      non-array value, or an array. */
  datatype Outlets = NoOutlets | One(outlet: Outlet) | Many(list: seq<Outlet>)

  /** `Array.isArray(outlets) ? outlets : (outlets ? [outlets] : [])`. */
  function AsList(outlets: Outlets): (list: seq<Outlet>)
    ensures outlets.NoOutlets? <==> list == [] && !outlets.Many?
    ensures outlets.One? ==> list == [outlets.outlet]
    ensures outlets.Many? ==> list == outlets.list
  {
    match outlets
    case NoOutlets => []
    case One(o) => [o]
    case Many(l) => l
  }

  /** The address picker is shown only for an array of more than one outlet. */
  function ShouldShowSelect(outlets: Outlets): (show: bool)
    ensures show <==> outlets.Many? && |AsList(outlets)| > 1
  {
    outlets.Many? && |outlets.list| > 1
  }

  /** The outlet's e-mail with surrounding white space removed, "" when there
      is none. */
  function TrimmedEmail(o: Outlet): string {
    match o.email
    case None => ""
    case Some(e) => Trim(e)
  }

  /** The case-insensitive key an address is compared by. */
  function Key(e: string): string {
    ToLowerAscii(e)
  }

  /** The keys of a list of addresses. */
  function Keys(emails: seq<string>): (keys: set<string>)
    ensures forall i :: 0 <= i < |emails| ==> Key(emails[i]) in keys
    ensures forall k :: k in keys ==> exists i :: 0 <= i < |emails| && Key(emails[i]) == k
  {
    set i | 0 <= i < |emails| :: Key(emails[i])
  }

  /** The de-duplicated addresses of the first |list| outlets: each non-empty
      trimmed address whose key has not been seen yet is appended. */
  function Dedup(list: seq<Outlet>): seq<string>
    decreases |list|
  {
    if list == [] then []
    else
      var prev := Dedup(list[..|list| - 1]);
      var t := TrimmedEmail(list[|list| - 1]);
      if t == "" || Key(t) in Keys(prev) then prev else prev + [t]
  }

  /** `outletEmails`: a `seen` set of keys and a list of first-seen addresses,
      filled outlet by outlet. */
  method OutletEmails(outlets: Outlets) returns (uniques: seq<string>)
    ensures uniques == Dedup(AsList(outlets))
  {
    var list := AsList(outlets);
    var seen: set<string> := {};
    uniques := [];
    for i := 0 to |list|
      invariant uniques == Dedup(list[..i])
      invariant seen == Keys(uniques)
    {
      assert list[..i + 1][..i] == list[..i];
      var raw := list[i].email.GetOr("");
      var trimmed := Trim(raw);
      if trimmed == "" {
        continue;
      }
      var key := Key(trimmed);
      if key in seen {
        continue;
      }
      KeysAppend(uniques, trimmed);
      seen := seen + {key};
      uniques := uniques + [trimmed];
    }
    assert list[..|list|] == list;
  }

  lemma KeysAppend(emails: seq<string>, e: string)
    ensures Keys(emails + [e]) == Keys(emails) + {Key(e)}
  {
    var l := emails + [e];
    forall k | k in Keys(l)
      ensures k in Keys(emails) + {Key(e)}
    {
      var i :| 0 <= i < |l| && Key(l[i]) == k;
      if i < |emails| {
        assert l[i] == emails[i];
      }
    }
    assert l[|emails|] == e;
    forall i | 0 <= i < |emails|
      ensures Key(emails[i]) in Keys(l)
    {
      assert l[i] == emails[i];
    }
  }

  /** The output grows only at its end: the addresses of a prefix of the
      outlets come first, in the same order. */
  lemma {:induction false} DedupPrefix(list: seq<Outlet>, n: nat)
    requires n <= |list|
    ensures Dedup(list[..n]) <= Dedup(list)
    decreases |list| - n
  {
    if n < |list| {
      DedupPrefix(list, n + 1);
      var m := list[..n + 1];
      assert m[..|m| - 1] == list[..n];
      DedupStep(m);
    } else {
      assert list[..n] == list;
    }
  }

  /** One more outlet adds at most one address, at the end. */
  lemma DedupStep(list: seq<Outlet>)
    requires list != []
    ensures Dedup(list[..|list| - 1]) <= Dedup(list)
  {
  }

  /** No more addresses than outlets. */
  lemma {:induction false} DedupLength(list: seq<Outlet>)
    ensures |Dedup(list)| <= |list|
    decreases |list|
  {
    if list != [] {
      DedupLength(list[..|list| - 1]);
    }
  }

  /** Non-empty, with no white space at either end. */
  predicate Trimmed(e: string) {
    e != [] && !IsJsWhitespace(e[0]) && !IsJsWhitespace(e[|e| - 1])
  }

  /** Every address is non-empty and trimmed. */
  lemma {:induction false} DedupTrimmed(list: seq<Outlet>)
    ensures forall i :: 0 <= i < |Dedup(list)| ==> Trimmed(Dedup(list)[i])
    decreases |list|
  {
    if list != [] {
      var prev := Dedup(list[..|list| - 1]);
      DedupTrimmed(list[..|list| - 1]);
      var t := TrimmedEmail(list[|list| - 1]);
      if !(t == "" || Key(t) in Keys(prev)) {
        assert Trimmed(t);
        assert forall i :: 0 <= i < |prev| ==> (prev + [t])[i] == prev[i];
      }
    }
  }

  /** No two addresses are equal ignoring case. */
  lemma {:induction false} DedupDistinct(list: seq<Outlet>)
    ensures forall i, j :: 0 <= i < j < |Dedup(list)| ==> Key(Dedup(list)[i]) != Key(Dedup(list)[j])
    decreases |list|
  {
    if list != [] {
      DedupDistinct(list[..|list| - 1]);
    }
  }

  /** Every outlet with a non-empty trimmed address is represented by an
      address equal to it ignoring case. */
  lemma {:induction false} DedupComplete(list: seq<Outlet>)
    ensures forall k :: 0 <= k < |list| && TrimmedEmail(list[k]) != "" ==>
      Key(TrimmedEmail(list[k])) in Keys(Dedup(list))
    decreases |list|
  {
    if list != [] {
      var init := list[..|list| - 1];
      var prev := Dedup(init);
      DedupComplete(init);
      var t := TrimmedEmail(list[|list| - 1]);
      if !(t == "" || Key(t) in Keys(prev)) {
        KeysAppend(prev, t);
      }
      forall k | 0 <= k < |list| - 1 && TrimmedEmail(list[k]) != ""
        ensures Key(TrimmedEmail(list[k])) in Keys(Dedup(list))
      {
        assert init[k] == list[k];
      }
    }
  }

  /** Whether outlet k is the first with a non-empty address of this key. */
  predicate FirstWithKey(list: seq<Outlet>, k: nat)
    requires k < |list|
  {
    TrimmedEmail(list[k]) != ""
    && forall k' :: 0 <= k' < k && TrimmedEmail(list[k']) != "" ==>
      Key(TrimmedEmail(list[k'])) != Key(TrimmedEmail(list[k]))
  }

  /** Address e is the trimmed address of the first outlet with its key. */
  predicate FirstSeen(list: seq<Outlet>, e: string) {
    exists k :: 0 <= k < |list| && FirstWithKey(list, k) && TrimmedEmail(list[k]) == e
  }

  /** Every address is the trimmed address of the first outlet with its key,
      in the casing that outlet gave it. */
  lemma {:induction false} DedupFirstSeen(list: seq<Outlet>)
    ensures forall i :: 0 <= i < |Dedup(list)| ==> FirstSeen(list, Dedup(list)[i])
    decreases |list|
  {
    if list != [] {
      var n := |list| - 1;
      var init := list[..n];
      var prev := Dedup(init);
      var r := Dedup(list);
      DedupFirstSeen(init);
      forall i | 0 <= i < |r|
        ensures FirstSeen(list, r[i])
      {
        if i < |prev| {
          assert r[i] == prev[i];
          assert FirstSeen(init, prev[i]);
          var k :| 0 <= k < n && FirstWithKey(init, k) && TrimmedEmail(init[k]) == prev[i];
          FirstWithKeyExtends(list, k);
        } else {
          NewAddressIsFirst(list);
          assert TrimmedEmail(list[n]) == r[i];
        }
      }
    }
  }

  /** Being first with a key among the outlets before the last one is kept
      when the last one is added. */
  lemma FirstWithKeyExtends(list: seq<Outlet>, k: nat)
    requires k < |list| - 1 && FirstWithKey(list[..|list| - 1], k)
    ensures FirstWithKey(list, k) && TrimmedEmail(list[k]) == TrimmedEmail(list[..|list| - 1][k])
  {
    var init := list[..|list| - 1];
    assert forall k' :: 0 <= k' <= k ==> init[k'] == list[k'];
  }

  /** An address appended for the last outlet is the first with its key. */
  lemma NewAddressIsFirst(list: seq<Outlet>)
    requires list != []
    requires |Dedup(list)| > |Dedup(list[..|list| - 1])|
    ensures FirstWithKey(list, |list| - 1)
    ensures Dedup(list) == Dedup(list[..|list| - 1]) + [TrimmedEmail(list[|list| - 1])]
  {
    var n := |list| - 1;
    var init := list[..n];
    var t := TrimmedEmail(list[n]);
    DedupComplete(init);
    forall k' | 0 <= k' < n && TrimmedEmail(list[k']) != ""
      ensures Key(TrimmedEmail(list[k'])) != Key(t)
    {
      assert init[k'] == list[k'];
    }
  }

  // ---------------------------------------------------------------------------
  // Reset-password dialog

  /** `prev || outletEmails[0] || ''`. */
  function DefaultSelection(prev: string, emails: seq<string>): (r: string)
    ensures prev != "" ==> r == prev
    ensures prev == "" && emails != [] ==> r == emails[0]
    ensures prev == "" && emails == [] ==> r == ""
  {
    if prev != "" then prev
    else if emails != [] && emails[0] != "" then emails[0]
    else ""
  }

  /** With nothing chosen yet, the dialog selects the first outlet's address:
      a non-empty trimmed address of an outlet. */
  lemma DefaultSelectionFromOutlets(outlets: Outlets)
    requires Dedup(AsList(outlets)) != []
    ensures var r := DefaultSelection("", Dedup(AsList(outlets)));
      r != "" && FirstSeen(AsList(outlets), r)
  {
    DedupFirstSeen(AsList(outlets));
    DedupTrimmed(AsList(outlets));
  }

  /** The dialog's open flag and the selected address. */
  class ResetDialog {
    var open: bool
    var selectedEmail: string

    constructor ()
      ensures !open && selectedEmail == ""
    {
      open := false;
      selectedEmail := "";
    }

    /** `setConfirmResetOpen`. */
    method SetOpen(b: bool)
      modifies this
      ensures open == b && selectedEmail == old(selectedEmail)
    {
      open := b;
    }

    /** `setSelectedEmail` from the address picker. */
    method Select(email: string)
      modifies this
      ensures selectedEmail == email && open == old(open)
    {
      selectedEmail := email;
    }

    /** The effect run when the dialog opens or the addresses change: an open
        dialog keeps an existing choice and otherwise takes the first address. */
    method SyncSelection(emails: seq<string>)
      modifies this
      ensures open == old(open)
      ensures !open ==> selectedEmail == old(selectedEmail)
      ensures open ==> selectedEmail == DefaultSelection(old(selectedEmail), emails)
    {
      if open {
        selectedEmail := DefaultSelection(selectedEmail, emails);
      }
    }
  }

  /** The confirm button is disabled while a reset is in flight, or while the
      picker is shown with nothing chosen. */
  function CanConfirm(resetLoading: bool, outlets: Outlets, selectedEmail: string): (ok: bool)
    ensures ok ==> !resetLoading
    ensures ok && ShouldShowSelect(outlets) ==> selectedEmail != ""
    ensures !resetLoading && !ShouldShowSelect(outlets) ==> ok
    ensures !resetLoading && ShouldShowSelect(outlets) && selectedEmail != "" ==> ok
  {
    !(resetLoading || (ShouldShowSelect(outlets) && selectedEmail == ""))
  }

  /** `selectedEmail || undefined`: the address sent with the reset request. */
  function ResetEmail(selectedEmail: string): (e: Option<string>)
    ensures e.None? <==> selectedEmail == ""
    ensures e.Some? ==> e.value == selectedEmail
  {
    if selectedEmail == "" then None else Some(selectedEmail)
  }
}
