/**
  Who is uploaded to an advertising platform: the matched profiles of a segment, the consent and
  suppression rules, and the normalised identifiers that are hashed.
*/
module AudienceMembers {
  import opened Common
  import opened Text

  datatype Platform = Meta | Google | TikTok | Leo

  function Code(p: Platform): (s: string)
    ensures ':' !in s
  {
    match p
    case Meta => "meta_ads"
    case Google => "google_ads"
    case TikTok => "tiktok_ads"
    case Leo => "leo_ads"
  }

  function ConsentKey(p: Platform): string {
    Code(p) + "_opt_in"
  }

  /** A JSON value, as far as consent looks at it. */
  datatype Json = True | False | OtherValue

  datatype Profile = Profile(
    id: string,
    tenant: string,
    status: int,
    tags: set<string>,
    email: Option<string>,
    phone: Option<string>,
    preferences: Option<map<string, Json>>)

  datatype Kind = ByProfile | ByEmail | ByPhone

  datatype Suppression = Suppression(
    tenant: string,
    active: bool,
    profile: Option<string>,
    kind: Kind,
    identifier: string,
    isGlobal: bool,
    campaign: Option<string>,
    expires: Option<int>)

  /** What one job reads; `digest` stands for SHA-256. */
  datatype View = View(
    tenant: string,
    campaign: string,
    tag: string,
    profiles: seq<Profile>,
    suppressions: seq<Suppression>,
    now: int,
    country: Option<string>,
    digest: string -> string)

  datatype Member = Member(profile: string, email: Option<string>, phone: Option<string>)

  // ----- Identifiers -----

  function Trimmed(value: Option<string>): string {
    if value.Some? then Strip(value.value) else ""
  }

  /** One '@', no white space, and a dot strictly inside the domain. */
  predicate IsEmail(s: string) {
    exists at, dot ::
      && 0 < at && at + 1 < dot < |s| - 1 && s[at] == '@' && s[dot] == '.'
      && forall i :: 0 <= i < |s| && i != at ==> s[i] != '@' && !IsSpace(s[i])
  }

  predicate IsWord(s: string) {
    s != "" && forall c :: c in s ==> c != '@' && !IsSpace(c)
  }

  ghost predicate IsAddress(s: string, name: string, host: string, domain: string) {
    IsWord(name) && IsWord(host) && IsWord(domain) && s == name + "@" + (host + "." + domain)
  }

  lemma SliceIsWord(s: string, i: nat, j: nat)
    requires i < j <= |s| && forall k :: i <= k < j ==> s[k] != '@' && !IsSpace(s[k])
    ensures IsWord(s[i..j])
  {
    forall c | c in s[i..j] ensures c != '@' && !IsSpace(c) {
      var k :| 0 <= k < j - i && s[i..j][k] == c;
      assert s[i + k] == c;
    }
  }

  /** An address is three words, joined by an '@' and a dot. */
  lemma EmailsAreAddresses(s: string)
    ensures IsEmail(s) <==> exists name, host, domain :: IsAddress(s, name, host, domain)
  {
    if IsEmail(s) {
      var at: int, dot: int :| 0 < at && at + 1 < dot < |s| - 1 && s[at] == '@' && s[dot] == '.'
        && forall i :: 0 <= i < |s| && i != at ==> s[i] != '@' && !IsSpace(s[i]);
      SplitEmail(s, at, dot);
    }
    if name, host, domain :| IsAddress(s, name, host, domain) {
      AddressIsOne(s, name, host, domain);
    }
  }

  lemma SplitEmail(s: string, at: nat, dot: nat)
    requires 0 < at && at + 1 < dot < |s| - 1 && s[at] == '@' && s[dot] == '.'
    requires forall i :: 0 <= i < |s| && i != at ==> s[i] != '@' && !IsSpace(s[i])
    ensures IsAddress(s, s[..at], s[at + 1..dot], s[dot + 1..])
  {
    SliceIsWord(s, 0, at);
    SliceIsWord(s, at + 1, dot);
    SliceIsWord(s, dot + 1, |s|);
    hide IsWord;
    assert s[0..at] == s[..at] && s[dot + 1..|s|] == s[dot + 1..];
    assert s == s[..at] + [s[at]] + s[at + 1..];
    assert s[at + 1..] == s[at + 1..dot] + [s[dot]] + s[dot + 1..];
  }

  lemma AddressIsOne(s: string, name: string, host: string, domain: string)
    requires IsAddress(s, name, host, domain)
    ensures IsEmail(s)
  {
    var at, dot := |name|, |name| + 1 + |host|;
    assert s[at] == '@' && s[dot] == '.';
    forall i | 0 <= i < |s| && i != at ensures s[i] != '@' && !IsSpace(s[i]) {
      if i < at { assert s[i] in name; }
      else if at < i < dot { assert s[i] == host[i - at - 1] && s[i] in host; }
      else if i > dot { assert s[i] == domain[i - dot - 1] && s[i] in domain; }
    }
  }

  function NormalizeEmail(value: Option<string>): (r: Option<string>)
    ensures r.Some? ==> IsEmail(r.value)
  {
    var text := Lower(Trimmed(value));
    if IsEmail(text) then Some(text) else None
  }

  function NormalizePhone(value: Option<string>, country: Option<string>): Option<string> {
    var raw := Trimmed(value);
    var digits := Digits(raw);
    if raw == "" then None
    else if raw[0] == '+' then (if |digits| >= 8 then Some("+" + digits) else None)
    else if country.Some? && country.value != "" then
      (if |digits| >= 8 then Some("+" + Digits(country.value) + DropZeros(digits)) else None)
    else None
  }

  /** Normalising a normalised address changes nothing. */
  lemma EmailTwice(value: Option<string>)
    requires NormalizeEmail(value).Some?
    ensures NormalizeEmail(NormalizeEmail(value)) == NormalizeEmail(value)
  {
    var text := Trimmed(value);
    if value.Some? { StripIsStripped(value.value); }
    LowerKeepsStripped(text);
    StripIsStripped(Lower(text));
    LowerTwice(text);
  }

  /** A number written locally, with a trunk zero, and the same number written internationally
      hash alike, however either is punctuated. */
  lemma LocalAndInternationalAgree(a: string, b: string, code: string, national: string, other: Option<string>)
    requires Stripped(a) && Stripped(b) && a != "" && a[0] != '+' && b != "" && b[0] == '+'
    requires AllDigits(national) && national != "" && national[0] != '0' && |national| >= 8
    requires Digits(a) == "0" + national && Digits(b) == Digits(code) + national && code != ""
    ensures NormalizePhone(Some(a), Some(code)) == NormalizePhone(Some(b), other)
        == Some("+" + Digits(code) + national)
  {
    StripIsStripped(a);
    StripIsStripped(b);
    hide Digits, Strip, Stripped;
    assert Trimmed(Some(a)) == a && Trimmed(Some(b)) == b;
    assert DropZeros("0" + national) == national by {
      assert ("0" + national)[1..] == national;
    }
    assert "+" + (Digits(code) + national) == "+" + Digits(code) + national;
  }

  /** The digits a normalised number has: all of an international one; the country's and those
      after the leading zeros of a local one. */
  function DigitCount(value: string, country: string): nat
    requires Strip(value) != ""
  {
    var raw := Strip(value);
    if raw[0] == '+' then |Digits(raw)| else |Digits(country)| + |DropZeros(Digits(raw))|
  }

  /** A number that has a normal form keeps it when normalised again exactly if at least eight
      digits remain; dropping leading zeros can leave fewer, and then nothing is left. */
  lemma PhoneTwice(value: string, country: string, other: Option<string>)
    requires NormalizePhone(Some(value), Some(country)).Some?
    ensures Strip(value) != ""
    ensures var r := NormalizePhone(Some(value), Some(country));
      && (NormalizePhone(r, other) == r <==> DigitCount(value, country) >= 8)
      && (DigitCount(value, country) < 8 ==> NormalizePhone(r, other) == None)
  {
    var r := NormalizePhone(Some(value), Some(country)).value;
    var digits := Digits(Strip(value));
    assert Trimmed(Some(value)) == Strip(value);
    DropZerosKeepsDigits(digits);
    assert AllDigits(r[1..]) && |r[1..]| == DigitCount(value, country);
    hide Digits, Strip, DropZeros;
    assert r == "+" + r[1..];
    PlusDigits(r[1..]);
  }

  /** Eight zeros written locally: they normalise to the country code alone. */
  lemma ZerosDoNotStay()
    ensures NormalizePhone(Some("00000000"), Some("84")) == Some("+84")
    ensures NormalizePhone(Some("+84"), Some("84")) == None
  {
    var zeros := "00000000";
    assert AllDigits(zeros) && Stripped(zeros) && Stripped("+84");
    StripIsStripped(zeros);
    StripIsStripped("+84");
    DigitsOfDigits(zeros);
    DigitsOfDigits("84");
    PlusDigits("84");
    OnlyZeros(zeros);
    assert "+84" == "+" + "84" && "+" + Digits("84") + "" == "+84";
  }

  lemma {:induction false} OnlyZeros(s: string)
    requires forall i :: 0 <= i < |s| ==> s[i] == '0'
    ensures DropZeros(s) == ""
  {
    if s != "" { OnlyZeros(s[1..]); }
  }

  lemma PlusDigits(d: string)
    requires AllDigits(d)
    ensures Strip("+" + d) == "+" + d && Digits("+" + d) == d
  {
    assert Stripped("+" + d) by {
      if d != "" { assert IsDigit(d[|d| - 1]) && ("+" + d)[|d|] == d[|d| - 1]; }
    }
    StripIsStripped("+" + d);
    DigitsAppend("+", d);
    DigitsOfDigits(d);
  }

  lemma {:induction false} DropZerosKeepsDigits(s: string)
    requires AllDigits(s)
    ensures AllDigits(DropZeros(s))
  {
    if s != [] && s[0] == '0' { DropZerosKeepsDigits(s[1..]); }
  }

  // ----- Selection -----

  predicate Matches(v: View, p: Profile) {
    p.tenant == v.tenant && p.status == 1 && v.tag in p.tags
  }

  predicate Names(e: Suppression, p: Profile) {
    || e.profile == Some(p.id)
    || (match e.kind
        case ByProfile => e.identifier == p.id
        case ByEmail => p.email.Some? && Lower(e.identifier) == Lower(p.email.value)
        case ByPhone => p.phone == Some(e.identifier))
  }

  predicate InForce(v: View, e: Suppression) {
    && e.active && e.tenant == v.tenant
    && (e.isGlobal || e.campaign == Some(v.campaign))
    && (e.expires.None? || e.expires.value > v.now)
  }

  predicate IsSuppressed(v: View, p: Profile) {
    exists e :: e in v.suppressions && InForce(v, e) && Names(e, p)
  }

  /** Consent is the literal true under this platform's own key; anything else is none. */
  predicate Consents(p: Profile, platform: Platform) {
    p.preferences.Some? && ConsentKey(platform) in p.preferences.value
      && p.preferences.value[ConsentKey(platform)] == True
  }

  function Hashed(v: View, value: Option<string>): Option<string> {
    if value.Some? then Some(v.digest(value.value)) else None
  }

  function MemberOf(v: View, platform: Platform, p: Profile): Member {
    if platform.Leo? then Member(p.id, None, None)
    else Member(p.id, Hashed(v, NormalizeEmail(p.email)), Hashed(v, NormalizePhone(p.phone, v.country)))
  }

  /** The rows the member query selects: for LEO Ads it also checks consent, for the other
      platforms that there is some identifier. */
  predicate Selected(v: View, platform: Platform, p: Profile) {
    && Matches(v, p) && !IsSuppressed(v, p)
    && if platform.Leo? then Consents(p, platform) else p.email.Some? || p.phone.Some?
  }

  /** The rows that become members. */
  predicate Eligible(v: View, platform: Platform, p: Profile) {
    && Matches(v, p) && !IsSuppressed(v, p) && Consents(p, platform)
    && (platform.Leo? || NormalizeEmail(p.email).Some? || NormalizePhone(p.phone, v.country).Some?)
  }

  function Rows(v: View, platform: Platform, ps: seq<Profile>): seq<Profile> {
    if ps == [] then [] else
      var rest := Rows(v, platform, ps[..|ps| - 1]);
      if Selected(v, platform, ps[|ps| - 1]) then rest + [ps[|ps| - 1]] else rest
  }

  /** The eligible profiles, in table order. */
  function Chosen(v: View, platform: Platform, ps: seq<Profile>): (r: seq<Profile>)
    ensures |r| <= |ps|
    ensures forall p :: p in r <==> p in ps && Eligible(v, platform, p)
  {
    if ps == [] then [] else
      var rest := Chosen(v, platform, ps[..|ps| - 1]);
      assert forall p :: p in ps <==> p in ps[..|ps| - 1] || p == ps[|ps| - 1];
      if Eligible(v, platform, ps[|ps| - 1]) then rest + [ps[|ps| - 1]] else rest
  }

  function MembersIn(v: View, platform: Platform): (ms: seq<Member>)
    ensures |ms| == |Chosen(v, platform, v.profiles)|
    ensures forall i :: 0 <= i < |ms| ==> ms[i] == MemberOf(v, platform, Chosen(v, platform, v.profiles)[i])
  {
    var cs := Chosen(v, platform, v.profiles);
    seq(|cs|, i requires 0 <= i < |cs| => MemberOf(v, platform, cs[i]))
  }

  function MatchedCount(v: View, ps: seq<Profile>): nat {
    if ps == [] then 0 else
      MatchedCount(v, ps[..|ps| - 1]) + if Matches(v, ps[|ps| - 1]) then 1 else 0
  }

  lemma {:induction false} EligibleAreMatched(v: View, platform: Platform, ps: seq<Profile>)
    ensures |Chosen(v, platform, ps)| <= MatchedCount(v, ps)
  {
    if ps != [] { EligibleAreMatched(v, platform, ps[..|ps| - 1]); }
  }

  lemma {:induction false} MatchedIsACount(v: View, ps: seq<Profile>) returns (at: set<nat>)
    ensures at == (set i | 0 <= i < |ps| && ps[i].tenant == v.tenant && ps[i].status == 1 && v.tag in ps[i].tags)
    ensures MatchedCount(v, ps) == |at|
  {
    at := {};
    if ps != [] {
      var n := |ps| - 1;
      at := MatchedIsACount(v, ps[..n]);
      if Matches(v, ps[n]) { at := at + {n}; }
    }
  }

  lemma MembersAreChosen(v: View, platform: Platform, m: Member)
    ensures m in MembersIn(v, platform) <==>
      exists p :: p in v.profiles && Eligible(v, platform, p) && m == MemberOf(v, platform, p)
  {
    hide Eligible, MemberOf;
    var cs := Chosen(v, platform, v.profiles);
    if p :| p in v.profiles && Eligible(v, platform, p) && m == MemberOf(v, platform, p) {
      var i :| 0 <= i < |cs| && cs[i] == p;
      assert MembersIn(v, platform)[i] == m;
    }
    if i :| 0 <= i < |cs| && MembersIn(v, platform)[i] == m {
      assert cs[i] in cs;
    }
  }

  /** These are the eligible profiles, each once and in table order: `at` are their places. */
  ghost predicate ArePlaces(v: View, platform: Platform, ps: seq<Profile>, cs: seq<Profile>, at: seq<nat>) {
    && |at| == |cs| && (forall i :: 0 <= i < |at| ==> at[i] < |ps| && cs[i] == ps[at[i]])
    && (forall i, j :: 0 <= i < j < |at| ==> at[i] < at[j])
    && (forall k :: 0 <= k < |ps| ==> (k in at <==> Eligible(v, platform, ps[k])))
  }

  lemma NotAPlace(v: View, platform: Platform, init: seq<Profile>, p: Profile, cs: seq<Profile>, at: seq<nat>)
    requires ArePlaces(v, platform, init, cs, at) && !Eligible(v, platform, p)
    ensures ArePlaces(v, platform, init + [p], cs, at)
  {
    hide Eligible;
    assert |init| !in at;
  }

  lemma OneMorePlace(v: View, platform: Platform, init: seq<Profile>, p: Profile, cs: seq<Profile>, at: seq<nat>)
    requires ArePlaces(v, platform, init, cs, at) && Eligible(v, platform, p)
    ensures ArePlaces(v, platform, init + [p], cs + [p], at + [|init|])
  {
    hide Eligible;
  }

  lemma ChosenThen(v: View, platform: Platform, init: seq<Profile>, p: Profile)
    ensures Chosen(v, platform, init + [p]) ==
      if Eligible(v, platform, p) then Chosen(v, platform, init) + [p] else Chosen(v, platform, init)
  {
    assert (init + [p])[..|init + [p]| - 1] == init;
  }

  lemma {:induction false} ChosenKeepOrder(v: View, platform: Platform, ps: seq<Profile>) returns (at: seq<nat>)
    ensures ArePlaces(v, platform, ps, Chosen(v, platform, ps), at)
  {
    at := [];
    if ps != [] {
      var init, p := ps[..|ps| - 1], ps[|ps| - 1];
      at := ChosenKeepOrder(v, platform, init);
      at := PlacesThen(v, platform, init, p, at);
      assert init + [p] == ps;
    }
  }

  lemma PlacesThen(v: View, platform: Platform, init: seq<Profile>, p: Profile, before: seq<nat>) returns (at: seq<nat>)
    requires ArePlaces(v, platform, init, Chosen(v, platform, init), before)
    ensures ArePlaces(v, platform, init + [p], Chosen(v, platform, init + [p]), at)
  {
    hide Eligible, ArePlaces, Chosen;
    ChosenThen(v, platform, init, p);
    at := before;
    if Eligible(v, platform, p) {
      OneMorePlace(v, platform, init, p, Chosen(v, platform, init), before);
      at := before + [|init|];
    } else {
      NotAPlace(v, platform, init, p, Chosen(v, platform, init), before);
    }
  }

  lemma MembersKeepOrder(v: View, platform: Platform) returns (at: seq<nat>)
    ensures |at| == |MembersIn(v, platform)|
    ensures forall i :: 0 <= i < |at| ==> at[i] < |v.profiles| && MembersIn(v, platform)[i] == MemberOf(v, platform, v.profiles[at[i]])
    ensures forall i, j :: 0 <= i < j < |at| ==> at[i] < at[j]
    ensures forall k :: 0 <= k < |v.profiles| ==> (k in at <==> Eligible(v, platform, v.profiles[k]))
  {
    hide Eligible, MemberOf;
    at := ChosenKeepOrder(v, platform, v.profiles);
  }

  /** No profile leaves without its own literal consent to this very platform, while an entry in
      force names it, or from outside the segment; every other one with a usable identifier is
      included. */
  lemma MembersAreTheEligible(v: View, platform: Platform, m: Member)
    ensures m in MembersIn(v, platform) <==> exists p ::
      && p in v.profiles && m == MemberOf(v, platform, p)
      && p.tenant == v.tenant && p.status == 1 && v.tag in p.tags
      && p.preferences.Some? && Code(platform) + "_opt_in" in p.preferences.value
      && p.preferences.value[Code(platform) + "_opt_in"] == True
      && (platform.Leo? || m.email.Some? || m.phone.Some?)
      && (forall e | e in v.suppressions && e.active && e.tenant == v.tenant
            && (e.isGlobal || e.campaign == Some(v.campaign)) && (e.expires.Some? ==> e.expires.value > v.now) ::
              && e.profile != Some(p.id)
              && (e.kind.ByProfile? ==> e.identifier != p.id)
              && (e.kind.ByEmail? && p.email.Some? ==> Lower(e.identifier) != Lower(p.email.value))
              && (e.kind.ByPhone? && p.phone.Some? ==> e.identifier != p.phone.value))
    ensures |MembersIn(v, platform)| <= MatchedCount(v, v.profiles)
  {
    EligibleAreMatched(v, platform, v.profiles);
    MembersAreChosen(v, platform, m);
    hide MembersIn, MatchedCount, NormalizeEmail, NormalizePhone;
  }

  /** What is uploaded of a profile: for LEO Ads only its id; for the others the hash of its
      address, trimmed and in lower case, if it is one, and the hash of its number, a plus sign
      and digits, if it has a country code and eight digits. */
  lemma MembersCarryHashes(v: View, platform: Platform, p: Profile)
    ensures var m := MemberOf(v, platform, p);
      && m.profile == p.id && (platform.Leo? ==> m.email == None && m.phone == None)
      && (!platform.Leo? ==>
            && (m.email.Some? <==> p.email.Some? && IsEmail(Lower(Strip(p.email.value))))
            && (m.email.Some? ==> m.email.value == v.digest(Lower(Strip(p.email.value))))
            && (m.phone.Some? ==> p.phone.Some? && Strip(p.phone.value) != "")
            && (p.phone.Some? && Strip(p.phone.value) != "" ==>
                  var raw := Strip(p.phone.value); var digits := Digits(raw);
                  && (m.phone.Some? <==> |digits| >= 8 && (raw[0] == '+' || (v.country.Some? && v.country.value != "")))
                  && (m.phone.Some? ==> m.phone.value == v.digest(
                        if raw[0] == '+' then "+" + digits else "+" + Digits(v.country.value) + DropZeros(digits)))))
  {
    assert Lower("") == "" && !IsEmail("");
  }

  /** Two profiles share an address hash exactly when their addresses differ at most in case and
      in the white space around them. */
  lemma EmailHashesAgreeExactly(v: View, platform: Platform, p: Profile, q: Profile)
    requires forall x, y :: v.digest(x) == v.digest(y) ==> x == y
    requires MemberOf(v, platform, p).email.Some? && MemberOf(v, platform, q).email.Some?
    ensures p.email.Some? && q.email.Some?
    ensures MemberOf(v, platform, p).email == MemberOf(v, platform, q).email <==>
      Lower(Strip(p.email.value)) == Lower(Strip(q.email.value))
  {
    MembersCarryHashes(v, platform, p);
    MembersCarryHashes(v, platform, q);
  }

  /** The loop over the selected rows: it tests consent again, normalises and hashes. */
  method CollectMembers(v: View, platform: Platform, rows: seq<Profile>) returns (members: seq<Member>)
    requires rows == Rows(v, platform, v.profiles)
    ensures members == MembersIn(v, platform)
  {
    hide Consents, MemberOf, Rows, Eligible;
    members := [];
    var i := 0;
    RowsSplit(v, platform, v.profiles);
    while i < |rows|
      invariant 0 <= i <= |rows|
      invariant members == MembersOfRows(v, platform, rows[..i])
    {
      var row := rows[i];
      assert rows[..i + 1][..i] == rows[..i];
      if Consents(row, platform) {
        var m := MemberOf(v, platform, row);
        if platform.Leo? || m.email.Some? || m.phone.Some? {
          members := members + [m];
        }
      }
      i := i + 1;
    }
    assert rows[..i] == rows;
  }

  function MembersOfRows(v: View, platform: Platform, rows: seq<Profile>): seq<Member> {
    if rows == [] then [] else
      var rest, row := MembersOfRows(v, platform, rows[..|rows| - 1]), rows[|rows| - 1];
      var m := MemberOf(v, platform, row);
      if Consents(row, platform) && (platform.Leo? || m.email.Some? || m.phone.Some?) then rest + [m] else rest
  }

  /** The query and the loop together check eligibility: a row without any identifier has no
      normalised one. */
  lemma EligibleIsCheckedTwice(v: View, platform: Platform, p: Profile)
    ensures var m := MemberOf(v, platform, p);
      Eligible(v, platform, p) <==>
        Selected(v, platform, p) && Consents(p, platform) && (platform.Leo? || m.email.Some? || m.phone.Some?)
  {
    hide IsSuppressed, Consents, Matches;
  }

  lemma {:induction false} RowsSplit(v: View, platform: Platform, ps: seq<Profile>)
    ensures |MembersOfRows(v, platform, Rows(v, platform, ps))| == |Chosen(v, platform, ps)|
    ensures forall i :: 0 <= i < |Chosen(v, platform, ps)| ==>
      MembersOfRows(v, platform, Rows(v, platform, ps))[i] == MemberOf(v, platform, Chosen(v, platform, ps)[i])
  {
    hide Selected, Eligible, Consents, MemberOf;
    if ps != [] {
      var init, p := ps[..|ps| - 1], ps[|ps| - 1];
      RowsSplit(v, platform, init);
      EligibleIsCheckedTwice(v, platform, p);
      var rows := Rows(v, platform, init);
      if Selected(v, platform, p) {
        assert (rows + [p])[..|rows|] == rows;
      }
    }
  }
}
