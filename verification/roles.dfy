/** Role lookup: the role table is an insertion-ordered map from lower-case
    user names to role strings, read once from disk and passed in here. */
module Roles {
  import opened Landmarks
  import opened Text

  type RoleTable = seq<(string, string)>

  const UnknownRole := "Unknown role"
  const ElderlyUser := "Elderly user"
  const FamilyMember := "Family member"
  const Caregiver := "Caregiver"

  /** The table written when no roles file exists yet. */
  const DefaultRoles: RoleTable := [("lucia", ElderlyUser), ("daniel", FamilyMember), ("nurse_ana", Caregiver)]

  predicate HasKey(t: RoleTable, key: string)
  {
    exists i :: 0 <= i < |t| && t[i].0 == key
  }

  /** `dict.get(key)`: the value of the first entry with that key. */
  function Lookup(t: RoleTable, key: string): (r: Option<string>)
    ensures r.None? <==> !HasKey(t, key)
    ensures r.Some? ==> exists i :: 0 <= i < |t| && t[i] == (key, r.value)
                                    && forall k :: 0 <= k < i ==> t[k].0 != key
  {
    if |t| == 0 then None
    else if t[0].0 == key then Some(t[0].1)
    else
      var r := Lookup(t[1..], key);
      assert forall k :: 1 <= k < |t| ==> t[k] == t[1..][k - 1];
      if r.Some? then
        var i :| 0 <= i < |t[1..]| && t[1..][i] == (key, r.value)
                 && forall k :: 0 <= k < i ==> t[1..][k].0 != key;
        assert t[i + 1] == (key, r.value);
        r
      else r
  }

  /** The normalised lookup key: stripped, then lower-cased. */
  function Key(name: string): (k: string)
    ensures |k| <= |name|
    ensures forall i :: 0 <= i < |k| ==> !('A' <= k[i] <= 'Z')
  {
    var k := Lower(Strip(name));
    assert forall i :: 0 <= i < |k| ==> k[i] == LowerChar(Strip(name)[i]);
    k
  }

  /** `get_user_role`. */
  function GetUserRole(t: RoleTable, name: string): (r: string)
    ensures HasKey(t, Key(name)) ==> exists i :: 0 <= i < |t| && t[i] == (Key(name), r)
    ensures !HasKey(t, Key(name)) ==> r == UnknownRole
  {
    var v := Lookup(t, Key(name));
    if v.Some? then v.value else UnknownRole
  }

  /** Names that differ only in surrounding whitespace get the same role. */
  lemma RoleIgnoresPadding(t: RoleTable, p: string, name: string, q: string)
    requires AllSpace(p) && AllSpace(q)
    ensures GetUserRole(t, p + name + q) == GetUserRole(t, name)
  {
    StripPadding(p, name, q);
  }

  /** Names that differ only in letter case get the same role. */
  lemma RoleIgnoresCase(t: RoleTable, a: string, b: string)
    requires Lower(a) == Lower(b)
    ensures GetUserRole(t, a) == GetUserRole(t, b)
  {
    LowerStrip(a);
    LowerStrip(b);
  }

  /** A stored key, written in any case and padded with whitespace, finds
      its role. */
  lemma StoredNameFound(t: RoleTable, i: nat, p: string, name: string, q: string)
    requires i < |t| && Lower(name) == t[i].0 && Strip(t[i].0) == t[i].0
    requires AllSpace(p) && AllSpace(q)
    requires forall k :: 0 <= k < i ==> t[k].0 != t[i].0
    ensures GetUserRole(t, p + name + q) == t[i].1
  {
    RoleIgnoresPadding(t, p, name, q);
    LowerStrip(name);
    assert Key(name) == t[i].0;
    var r := Lookup(t, t[i].0);
    var j :| 0 <= j < |t| && t[j] == (t[i].0, r.value) && forall k :: 0 <= k < j ==> t[k].0 != t[i].0;
    assert j == i;
  }

  /** A word with no upper-case letter and no whitespace at either end is
      its own key. */
  lemma WordKey(k: string)
    requires |k| > 0 && !IsSpace(k[0]) && !IsSpace(k[|k| - 1])
    requires forall i :: 0 <= i < |k| ==> !('A' <= k[i] <= 'Z')
    ensures Key(k) == k
  {
    StripUnique(k, 0, |k|);
    assert k[0..|k|] == k;
    LowerKeepsNonLetters(k);
  }

  lemma LowerLucia()
    ensures Lower("Lucia") == "lucia"
  {
    var l := Lower("Lucia");
    assert l[0] == LowerChar('L') == 'l';
    assert l[1..] == "lucia"[1..];
  }

  /** The module's own example run: "Lucia", written with a capital letter,
      is an elderly user in the default table... */
  lemma ExampleLucia()
    ensures GetUserRole(DefaultRoles, "Lucia") == ElderlyUser
  {
    WordKey("lucia");
    LowerLucia();
    RoleIgnoresCase(DefaultRoles, "Lucia", "lucia");
    assert DefaultRoles[0].0 == Key("lucia");
  }

  /** ... "nurse_ana" is a caregiver ... */
  lemma ExampleNurse()
    ensures GetUserRole(DefaultRoles, "nurse_ana") == Caregiver
  {
    WordKey("nurse_ana");
    assert |DefaultRoles[0].0| != 9 && |DefaultRoles[1].0| != 9;
    assert DefaultRoles[2].0 == Key("nurse_ana");
  }

  /** ... and "random_guy" has no role. */
  lemma ExampleUnknown()
    ensures GetUserRole(DefaultRoles, "random_guy") == UnknownRole
  {
    WordKey("random_guy");
    assert forall i :: 0 <= i < |DefaultRoles| ==> |DefaultRoles[i].0| != 10;
  }
}
