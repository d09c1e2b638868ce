/** Which webhooks an event goes to: a text search over a stored list. */
module Subscriptions {
  const ALL_EVENTS := "*"

  predicate NoComma(s: string) {
    ',' !in s
  }

  /** The stored form of a list of kinds. */
  function Joined(kinds: seq<string>): string {
    if kinds == [] then "" else if |kinds| == 1 then kinds[0] else kinds[0] + "," + Joined(kinds[1..])
  }

  predicate FoundAt(text: string, part: string, p: nat) {
    p + |part| <= |text| && text[p..p + |part|] == part
  }

  /** The query's filter, on the stored text. */
  ghost predicate Subscribed(events: string, kind: string) {
    events == ALL_EVENTS || exists p: nat :: FoundAt("," + events + ",", "," + kind + ",", p)
  }

  function Fenced(kinds: seq<string>): string {
    if kinds == [] then "," else "," + kinds[0] + Fenced(kinds[1..])
  }

  lemma {:induction false} FencedIsJoined(kinds: seq<string>)
    requires kinds != []
    ensures Fenced(kinds) == "," + Joined(kinds) + ","
  {
    if |kinds| == 1 {
      assert Fenced(kinds[1..]) == ",";
    } else {
      FencedIsJoined(kinds[1..]);
      assert Fenced(kinds) == "," + kinds[0] + ("," + Joined(kinds[1..]) + ",");
    }
  }

  lemma {:induction false} MemberIsFound(kinds: seq<string>, i: nat) returns (p: nat)
    requires i < |kinds|
    ensures FoundAt(Fenced(kinds), "," + kinds[i] + ",", p)
  {
    var head, rest := "," + kinds[0], Fenced(kinds[1..]);
    if i == 0 {
      assert rest[0] == ',';
      assert Fenced(kinds)[..|head| + 1] == head + ",";
      p := 0;
    } else {
      var q := MemberIsFound(kinds[1..], i - 1);
      p := |head| + q;
      assert Fenced(kinds)[p..p + |kinds[i]| + 2] == rest[q..q + |kinds[i]| + 2];
    }
  }

  /** Between two commas there is room for one word without commas. */
  lemma WordsAgree(a: string, b: string, rest: string)
    requires NoComma(a) && NoComma(b) && rest != [] && rest[0] == ','
    requires FoundAt("," + a + rest, "," + b + ",", 0)
    ensures a == b
  {
    var text, part := "," + a + rest, "," + b + ",";
    assert text[..|part|] == part;
    assert forall i | 0 <= i < |part| :: text[i] == part[i];
    assert text[1 + |a|] == ',' && text[1 + |b|] == ',';
    assert forall i | 0 <= i < |b| :: text[1 + i] == b[i] != ',';
    assert forall i | 0 <= i < |a| :: text[1 + i] == a[i] != ',';
    assert |a| == |b|;
    assert forall i | 0 <= i < |a| :: a[i] == text[1 + i] == part[1 + i] == b[i];
  }

  lemma {:induction false} FoundIsMember(kinds: seq<string>, kind: string, p: nat)
    requires NoComma(kind) && (forall k | k in kinds :: NoComma(k)) && FoundAt(Fenced(kinds), "," + kind + ",", p)
    ensures kind in kinds
  {
    var text, part := Fenced(kinds), "," + kind + ",";
    assert text[p] == text[p..p + |part|][0] == ',';
    if kinds != [] {
      var head, rest := "," + kinds[0], Fenced(kinds[1..]);
      assert NoComma(kinds[0]) && text == head + rest;
      if p == 0 {
        WordsAgree(kinds[0], kind, rest);
      } else {
        assert forall i | 0 < i < |head| :: text[i] == kinds[0][i - 1] != ',';
        assert p >= |head|;
        assert rest[p - |head|..p - |head| + |part|] == text[p..p + |part|];
        FoundIsMember(kinds[1..], kind, p - |head|);
      }
    }
  }

  /** On lists of kinds without commas the text search is membership. */
  lemma SubscribedIsMember(kinds: seq<string>, kind: string)
    requires kind != "" && NoComma(kind) && forall k | k in kinds :: NoComma(k)
    ensures Subscribed(Joined(kinds), kind) <==> Joined(kinds) == ALL_EVENTS || kind in kinds
  {
    var text, part := "," + Joined(kinds) + ",", "," + kind + ",";
    if kinds == [] {
      assert |part| > |text|;
    } else {
      FencedIsJoined(kinds);
      if kind in kinds {
        var i :| 0 <= i < |kinds| && kinds[i] == kind;
        var p := MemberIsFound(kinds, i);
      }
      forall p: nat | FoundAt(text, part, p)
        ensures kind in kinds
      {
        FoundIsMember(kinds, kind, p);
      }
    }
  }
}
