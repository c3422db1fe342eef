/** Which of a payload's JSON members counts as its billing reference when it is
    read, and what is left of it when the import rewrites it
    (internal/vault/service.go, ImportAllWithHook).

    A typed decoder takes a key in any letter case, the last member winning; a
    map keeps each spelling apart, and is written back in key order. */
module VaultReference {
  import opened Bytes
  import opened Wrappers
  import opened Order

  const EXACT := Ascii("billing_address_item_id")

  /** A member that decodes into the field; None is null. */
  datatype Member = Member(key: Text, value: Option<Text>)

  /** The typed decoder: the last member. */
  function Typed(ms: seq<Member>): Option<Text> { if ms == [] then None else ms[|ms| - 1].value }

  predicate Has(ms: seq<Member>, key: Text) { exists i :: 0 <= i < |ms| && ms[i].key == key }

  /** The map's entry for one spelling: the last member that has it. */
  function Entry(ms: seq<Member>, key: Text): Option<Text> {
    if ms == [] then None
    else if ms[|ms| - 1].key == key then ms[|ms| - 1].value
    else Entry(ms[..|ms| - 1], key)
  }

  /** The reference that the rewriting sees: under the exact key, not null and
      not empty. */
  function Usable(ms: seq<Member>): Option<Text> {
    if Entry(ms, EXACT) == Some([]) then None else Entry(ms, EXACT)
  }

  /** The spelling that is written last. */
  function GreatestKey(ms: seq<Member>): Text
    requires ms != []
  {
    var last := ms[|ms| - 1].key;
    if |ms| == 1 then last
    else
      var rest := GreatestKey(ms[..|ms| - 1]);
      if TextLess(rest, last) then last else rest
  }

  /** The spelling written last is one of the payload's, and none of the others
      is greater. */
  lemma {:induction false} GreatestKeyMeans(ms: seq<Member>)
    requires ms != []
    ensures Has(ms, GreatestKey(ms))
    ensures forall i :: 0 <= i < |ms| ==> !TextLess(GreatestKey(ms), ms[i].key)
  {
    var n := |ms| - 1;
    assert ms[n].key == ms[n].key;
    if n == 0 {
      TextLessIrreflexive(ms[0].key);
    } else {
      GreatestKeyMeans(ms[..n]);
      var rest, last := GreatestKey(ms[..n]), ms[n].key;
      var j :| 0 <= j < n && ms[..n][j].key == rest;
      assert ms[j].key == rest;
      TextLessIrreflexive(last);
      forall i | 0 <= i < n ensures !TextLess(GreatestKey(ms), ms[i].key) {
        assert ms[..n][i] == ms[i];
        if TextLess(rest, last) && TextLess(last, ms[i].key) {
          TextLessTransitive(rest, last, ms[i].key);
        }
      }
    }
  }

  /** The entry of a spelling is its last member's. */
  lemma {:induction false} EntryMeans(ms: seq<Member>, key: Text, i: nat)
    requires i < |ms| && ms[i].key == key && forall j :: i < j < |ms| ==> ms[j].key != key
    ensures Entry(ms, key) == ms[i].value
  {
    if i < |ms| - 1 {
      EntryMeans(ms[..|ms| - 1], key, i);
    }
  }

  /** What a typed decoder reads after the exact entry was set and the map was
      written back. */
  function Rewritten(ms: seq<Member>, v: Option<Text>): Option<Text>
    requires ms != []
  {
    if GreatestKey(ms) == EXACT then v else Entry(ms, GreatestKey(ms))
  }

  lemma {:induction false} UsableNonempty(ms: seq<Member>)
    requires Usable(ms).Some?
    ensures ms != [] && Usable(ms).value != [] && Has(ms, EXACT)
  {
    if ms[|ms| - 1].key != EXACT {
      UsableNonempty(ms[..|ms| - 1]);
      var i :| 0 <= i < |ms| - 1 && ms[..|ms| - 1][i].key == EXACT;
      assert ms[i].key == EXACT;
    } else {
      assert ms[|ms| - 1].key == EXACT;
    }
  }

  /** The reference an item is stored with; `follow` says where a reference
      leads. */
  function Stored(ms: seq<Member>, follow: Text -> Option<Text>): Option<Text> {
    if Usable(ms).None? then Typed(ms)
    else
      UsableNonempty(ms);
      Rewritten(ms, follow(Usable(ms).value))
  }

  predicate Names(reference: Option<Text>) { reference.Some? && reference.value != [] }

  /** The reference it should be stored with: where the one that was validated
      leads, if it names something. */
  function Wanted(ms: seq<Member>, follow: Text -> Option<Text>): Option<Text> {
    if Names(Typed(ms)) then follow(Typed(ms).value) else Typed(ms)
  }

  /** The member that was read and the one that is rewritten agree. */
  predicate KeysAgree(ms: seq<Member>) {
    if Usable(ms).None? then !Names(Typed(ms))
    else if ms == [] then true
    else if GreatestKey(ms) == EXACT then Typed(ms) == Usable(ms)
    else !Names(Typed(ms)) && Entry(ms, GreatestKey(ms)) == Typed(ms)
  }

  /** References lead, wherever they lead, to where they should exactly when the
      keys agree. */
  lemma FollowsIff(ms: seq<Member>)
    ensures (forall follow :: Stored(ms, follow) == Wanted(ms, follow)) <==> KeysAgree(ms)
  {
    if Usable(ms).Some? {
      UsableNonempty(ms);
    }
    if !KeysAgree(ms) {
      var nowhere: Text -> Option<Text> := _ => None;
      var somewhere: Text -> Option<Text> := z => Some([0] + z);
      if Usable(ms).Some? && GreatestKey(ms) == EXACT && Names(Typed(ms)) {
        var x := Usable(ms).value;
        var apart: Text -> Option<Text> := z => if z == x then None else Some(z);
        assert Stored(ms, apart) != Wanted(ms, apart);
      } else if Usable(ms).Some? && GreatestKey(ms) == EXACT {
        assert [0] + Usable(ms).value != [];
        assert Stored(ms, somewhere) != Wanted(ms, somewhere);
      } else if Stored(ms, nowhere).Some? {
        assert Stored(ms, nowhere) != Wanted(ms, nowhere);
      } else {
        assert Stored(ms, somewhere) != Wanted(ms, somewhere);
      }
    }
  }

  /** Payloads that spell the key exactly agree, however often they have it. */
  lemma {:induction false} ExactKeysAgree(ms: seq<Member>)
    requires forall i :: 0 <= i < |ms| ==> ms[i].key == EXACT
    ensures KeysAgree(ms)
  {
    if ms != [] {
      ExactGreatest(ms);
    }
  }

  lemma {:induction false} ExactGreatest(ms: seq<Member>)
    requires ms != [] && forall i :: 0 <= i < |ms| ==> ms[i].key == EXACT
    ensures GreatestKey(ms) == EXACT
  {
    if |ms| > 1 {
      ExactGreatest(ms[..|ms| - 1]);
    }
  }

  /** One member in another letter case agrees only if it names nothing. */
  lemma OneMisspelt(key: Text, value: Option<Text>)
    requires key != EXACT
    ensures KeysAgree([Member(key, value)]) <==> !Names(value)
  {
    var ms := [Member(key, value)];
    assert ms[..0] == [];
    assert Entry(ms, EXACT) == None;
  }
}
