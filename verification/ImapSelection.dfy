/** Choosing mail on an IMAP server: the nested OR search key and the fair allocation of a limit
    over folders (icloud_gateway/imap_otp.py). */
module ImapSelection {
  import opened Options

  // ---------------------------------------------------------------- search keys

  /** The part of the SEARCH grammar (section 6.4.4 of RFC 3501) that matters: HEADER takes a
      field name and a string, OR takes exactly two keys. */
  datatype SearchKey = Header(field: string, text: string) | Or(left: SearchKey, right: SearchKey)

  /** Reads one search key from the front of a list of arguments. */
  function ParseKey(args: seq<string>): (r: Option<(SearchKey, seq<string>)>)
    ensures r.Some? ==> |r.value.1| < |args|
    decreases |args|
  {
    if |args| >= 3 && args[0] == "HEADER" then Some((Header(args[1], args[2]), args[3..]))
    else if |args| >= 1 && args[0] == "OR" then
      var left := ParseKey(args[1..]);
      if left.None? then None else
      var right := ParseKey(left.value.1);
      if right.None? then None else Some((Or(left.value.0, right.value.0), right.value.1))
    else None
  }

  /** Whether a message, given as the header searches it answers, matches a key. */
  predicate Matches(answers: (string, string) -> bool, key: SearchKey) {
    match key
    case Header(field, text) => answers(field, text)
    case Or(left, right) => Matches(answers, left) || Matches(answers, right)
  }

  function Ors(key: SearchKey): nat { if key.Or? then 1 + Ors(key.left) + Ors(key.right) else 0 }

  function Terms(headers: seq<string>, text: string): seq<string>
    requires headers != []
  {
    if |headers| == 1 then ["HEADER", headers[0], text]
    else ["OR", "HEADER", headers[0], text] + Terms(headers[1..], text)
  }

  /** _recipient_search_terms, which builds the list from its end. */
  method RecipientSearchTerms(headers: seq<string>, text: string) returns (terms: seq<string>)
    requires headers != []
    ensures terms == Terms(headers, text)
  {
    var i := |headers| - 1;
    terms := ["HEADER", headers[i], text];
    assert headers[i..] == [headers[i]];
    while i > 0
      invariant 0 <= i < |headers| && terms == Terms(headers[i..], text)
    {
      i := i - 1;
      assert headers[i..][1..] == headers[i + 1..];
      terms := ["OR", "HEADER", headers[i], text] + terms;
    }
    assert headers[0..] == headers;
  }

  /** The list reads as exactly one search key, whatever follows it; the key means that some of
      the headers has the text, and it spends one OR less than there are headers. */
  lemma {:induction false} TermsAreOneKey(headers: seq<string>, text: string, rest: seq<string>)
    returns (key: SearchKey)
    requires headers != []
    ensures ParseKey(Terms(headers, text) + rest) == Some((key, rest))
    ensures forall answers: (string, string) -> bool ::
              Matches(answers, key) <==> exists h | h in headers :: answers(h, text)
    ensures Ors(key) == |headers| - 1
  {
    var args := Terms(headers, text) + rest;
    if |headers| == 1 {
      key := Header(headers[0], text);
      assert args[3..] == rest;
    } else {
      var tail := TermsAreOneKey(headers[1..], text, rest);
      key := Or(Header(headers[0], text), tail);
      assert args[1..][3..] == Terms(headers[1..], text) + rest;
      forall answers: (string, string) -> bool
        ensures Matches(answers, key) <==> exists h | h in headers :: answers(h, text)
      {
        assert headers == [headers[0]] + headers[1..];
      }
    }
  }

  // ---------------------------------------------------------------- allocation

  function Least(a: nat, b: nat): nat { if a < b then a else b }

  function Sum(s: seq<nat>): nat { if s == [] then 0 else Sum(s[..|s| - 1]) + s[|s| - 1] }

  function Sizes<T>(folders: seq<seq<T>>): seq<nat> { seq(|folders|, i requires 0 <= i < |folders| => |folders[i]|) }

  /** After `rounds` full rounds and the first `extra` folders of one more. */
  function Dealt(sizes: seq<nat>, rounds: nat, extra: nat): seq<nat> {
    seq(|sizes|, i requires 0 <= i < |sizes| => Least(sizes[i], if i < extra then rounds + 1 else rounds))
  }

  lemma {:induction false} SumUpdated(s: seq<nat>, i: nat, x: nat)
    requires i < |s|
    ensures Sum(s[i := x]) == Sum(s) - s[i] + x
  {
    var t := s[i := x];
    if i == |s| - 1 {
      assert t[..|s| - 1] == s[..|s| - 1];
    } else {
      assert t[..|s| - 1] == s[..|s| - 1][i := x];
      SumUpdated(s[..|s| - 1], i, x);
    }
  }

  lemma {:induction false} SumLe(s: seq<nat>, t: seq<nat>)
    requires |s| == |t| && forall i | 0 <= i < |s| :: s[i] <= t[i]
    ensures Sum(s) <= Sum(t) && (Sum(s) == Sum(t) ==> s == t)
  {
    if s != [] {
      SumLe(s[..|s| - 1], t[..|t| - 1]);
      if Sum(s) == Sum(t) {
        assert s == s[..|s| - 1] + [s[|s| - 1]] && t == t[..|t| - 1] + [t[|t| - 1]];
      }
    }
  }

  lemma {:induction false} SumZero(s: seq<nat>)
    requires forall i | 0 <= i < |s| :: s[i] == 0
    ensures Sum(s) == 0
  {
    if s != [] {
      SumZero(s[..|s| - 1]);
    }
  }

  /** No folder that still has something is more than one behind any other, and a later folder
      is never ahead of an earlier one that still has something. */
  ghost predicate Fair(sizes: seq<nat>, taken: seq<nat>) {
    && |taken| == |sizes|
    && (forall i, j | 0 <= i < |sizes| && 0 <= j < |sizes| && taken[i] < sizes[i] :: taken[j] <= taken[i] + 1)
    && (forall i, j | 0 <= i < j < |sizes| && taken[i] < sizes[i] :: taken[j] <= taken[i])
  }

  lemma DealtIsFair(sizes: seq<nat>, rounds: nat, extra: nat)
    ensures Fair(sizes, Dealt(sizes, rounds, extra))
  {}

  /** Dealing the next folder in a round. */
  lemma DealtNext(sizes: seq<nat>, rounds: nat, k: nat)
    requires k < |sizes|
    ensures Dealt(sizes, rounds, k + 1)
         == if sizes[k] <= rounds then Dealt(sizes, rounds, k) else Dealt(sizes, rounds, k)[k := rounds + 1]
    ensures Dealt(sizes, rounds, k)[k] == Least(sizes[k], rounds)
  {}

  /** A round in which nobody gets anything. */
  lemma DealtNothing(sizes: seq<nat>, rounds: nat)
    requires Dealt(sizes, rounds, |sizes|) == Dealt(sizes, rounds, 0)
    ensures Dealt(sizes, rounds, 0) == sizes
  {
    forall i | 0 <= i < |sizes| ensures sizes[i] <= rounds {
      assert Dealt(sizes, rounds, |sizes|)[i] == Dealt(sizes, rounds, 0)[i];
    }
  }

  /** The state of the loops: what is selected is a prefix of every folder. */
  ghost predicate Prefixes(folders: seq<seq<string>>, positions: seq<nat>, selected: seq<seq<string>>) {
    && |positions| == |folders| == |selected|
    && forall i | 0 <= i < |folders| :: positions[i] <= |folders[i]| && selected[i] == folders[i][..positions[i]]
  }

  function Allowed(limit: int): nat { if limit < 0 then 0 else limit }

  /** _allocate_folder_uids: a prefix of every folder, the limit or everything in all, fairly. */
  method AllocateFolderUids(folders: seq<seq<string>>, limit: int) returns (selected: seq<seq<string>>, truncated: bool)
    ensures |selected| == |folders| && forall i | 0 <= i < |folders| :: selected[i] <= folders[i]
    ensures var total := Sum(Sizes(folders));
            Sum(Sizes(selected)) == if limit < 0 then 0 else if limit < total then limit else total
    ensures Fair(Sizes(folders), Sizes(selected))
    // no folder that still has something is more than one behind any other
    ensures forall i, j | 0 <= i < |folders| && 0 <= j < |folders| && |selected[i]| < |folders[i]| ::
              |selected[j]| <= |selected[i]| + 1
    ensures truncated <==> Sum(Sizes(folders)) > if limit < 0 then 0 else limit
  {
    var positions: seq<nat>;
    selected, positions := Deal(folders, Allowed(limit));
    truncated := exists i | 0 <= i < |folders| :: positions[i] < |folders[i]|;
    assert Sizes(selected) == positions;
    SumLe(positions, Sizes(folders));
    assert truncated <==> positions != Sizes(folders);
  }

  /** The outer loop. */
  method Deal(folders: seq<seq<string>>, allowed: nat) returns (selected: seq<seq<string>>, positions: seq<nat>)
    ensures Prefixes(folders, positions, selected) && Fair(Sizes(folders), positions)
    ensures Sum(positions) <= allowed && (Sum(positions) < allowed ==> positions == Sizes(folders))
  {
    var remaining;
    selected, positions, remaining := seq(|folders|, _ => []), seq(|folders|, _ => 0), allowed;
    ghost var sizes, rounds, extra := Sizes(folders), 0, 0;
    SumZero(positions);
    assert positions == Dealt(sizes, 0, 0);
    while remaining > 0
      invariant remaining >= 0 && Prefixes(folders, positions, selected) && Sum(positions) + remaining == allowed
      invariant positions == Dealt(sizes, rounds, extra) && (remaining > 0 ==> extra == 0)
      decreases remaining
    {
      var left := remaining;
      selected, positions, remaining, extra := Round(folders, selected, positions, remaining, rounds);
      if remaining == left {
        break;
      }
      if remaining > 0 {
        assert positions == Dealt(sizes, rounds + 1, 0);
        rounds, extra := rounds + 1, 0;
      }
    }
    DealtIsFair(sizes, rounds, extra);
  }

  lemma OneMore(folders: seq<seq<string>>, positions: seq<nat>, selected: seq<seq<string>>, i: nat)
    requires Prefixes(folders, positions, selected) && i < |folders| && positions[i] < |folders[i]|
    ensures Prefixes(folders, positions[i := positions[i] + 1], selected[i := selected[i] + [folders[i][positions[i]]]])
    ensures Sum(positions[i := positions[i] + 1]) == Sum(positions) + 1
  {
    SumUpdated(positions, i, positions[i] + 1);
    assert folders[i][..positions[i] + 1] == folders[i][..positions[i]] + [folders[i][positions[i]]];
  }

  /** One round over the folders; it ends early when nothing remains. */
  method Round(folders: seq<seq<string>>, was: seq<seq<string>>, before: seq<nat>, left: nat, ghost rounds: nat)
    returns (selected: seq<seq<string>>, positions: seq<nat>, remaining: nat, ghost extra: nat)
    requires left > 0 && Prefixes(folders, before, was) && before == Dealt(Sizes(folders), rounds, 0)
    ensures Prefixes(folders, positions, selected) && Sum(positions) + remaining == Sum(before) + left
    ensures extra <= |folders| && positions == Dealt(Sizes(folders), rounds, extra)
    ensures remaining > 0 ==> extra == |folders|
    ensures remaining == left ==> positions == Sizes(folders)
    ensures remaining <= left
  {
    selected, positions, remaining, extra := was, before, left, 0;
    for index := 0 to |folders|
      invariant Prefixes(folders, positions, selected) && Sum(positions) + remaining == Sum(before) + left
      invariant 0 < remaining <= left && extra == index && positions == Dealt(Sizes(folders), rounds, index)
      invariant remaining == left ==> positions == before
    {
      DealtNext(Sizes(folders), rounds, index);
      extra := index + 1;
      if positions[index] < |folders[index]| {
        OneMore(folders, positions, selected, index);
        selected := selected[index := selected[index] + [folders[index][positions[index]]]];
        positions := positions[index := positions[index] + 1];
        remaining := remaining - 1;
        if remaining == 0 {
          return;
        }
      }
    }
    if remaining == left {
      DealtNothing(Sizes(folders), rounds);
    }
  }
}
