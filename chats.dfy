/**
 * The chat history page of frontend/src/pages/Chats.jsx: a constant list of
 * chats and the search box that filters it by a case-insensitive substring
 * test on the title and on the last message.
 */
module Chats {
  import Text

  datatype Chat = Chat(id: nat, title: string, lastMessage: string, time: string, unread: nat)

  /** The mock history the page shows. */
  const MockChats: seq<Chat> := [
    Chat(1, "Gen-Z Chaotic Chat", "Sup trouble \U{1F609} what're we on rn?", "3:19 AM", 0),
    Chat(2, "Study Buddy Session", "Let's tackle that math problem!", "2:45 AM", 2),
    Chat(3, "Productivity Coach", "Great job on completing your tasks!", "1:30 AM", 0),
    Chat(4, "Therapist Friend", "How are you feeling today?", "12:15 AM", 1)
  ]

  /** The filter predicate: the lower-cased title or last message contains the lower-cased query. */
  predicate Matches(chat: Chat, query: string) {
    Text.Contains(Text.ToLower(chat.title), Text.ToLower(query))
    || Text.Contains(Text.ToLower(chat.lastMessage), Text.ToLower(query))
  }

  /** `chats.filter(chat => Matches(chat, query))`. */
  function Filter(chats: seq<Chat>, query: string): (r: seq<Chat>)
    ensures |r| <= |chats|
  {
    if chats == [] then []
    else (if Matches(chats[0], query) then [chats[0]] else []) + Filter(chats[1..], query)
  }

  /** `filteredChats` for the current search box text. */
  function FilteredChats(query: string): seq<Chat> {
    Filter(MockChats, query)
  }

  /** What the list area shows: the "No chats found" notice, or the filtered chats. */
  datatype View = NoChatsFound | Listing(chats: seq<Chat>)

  function ListView(query: string): (v: View)
    ensures v.Listing? ==> v.chats == FilteredChats(query) && v.chats != []
  {
    var shown := FilteredChats(query);
    if |shown| == 0 then NoChatsFound else Listing(shown)
  }

  /** `r` is `s` with some elements dropped and the rest kept in order. */
  predicate IsSubsequence(r: seq<Chat>, s: seq<Chat>)
    decreases |s|
  {
    if r == [] then true
    else if s == [] then false
    else (r[0] == s[0] && IsSubsequence(r[1..], s[1..])) || IsSubsequence(r, s[1..])
  }

  /** The empty string occurs in every string. */
  lemma ContainsEmpty(s: string)
    ensures Text.Contains(s, "")
  {
    assert Text.StartsWith(s, "");
  }

  /** An empty search keeps every chat. */
  lemma {:induction false} EmptyQueryKeepsAll(chats: seq<Chat>)
    ensures Filter(chats, "") == chats
  {
    if chats != [] {
      ContainsEmpty(Text.ToLower(chats[0].title));
      assert Text.ToLower("") == "";
      EmptyQueryKeepsAll(chats[1..]);
      assert [chats[0]] + chats[1..] == chats;
    }
  }

  /** The filtered list is an order-preserving subsequence of the list. */
  lemma {:induction false} FilterIsSubsequence(chats: seq<Chat>, query: string)
    ensures IsSubsequence(Filter(chats, query), chats)
  {
    if chats != [] {
      var rest := Filter(chats[1..], query);
      FilterIsSubsequence(chats[1..], query);
      if Matches(chats[0], query) {
        var r := [chats[0]] + rest;
        assert r[0] == chats[0] && r[1..] == rest;
      } else {
        assert Filter(chats, query) == rest;
        SubsequenceOfTail(rest, chats);
      }
    }
  }

  /** Dropping the head of the longer list keeps a subsequence of the tail a subsequence. */
  lemma SubsequenceOfTail(r: seq<Chat>, s: seq<Chat>)
    requires s != [] && IsSubsequence(r, s[1..])
    ensures IsSubsequence(r, s)
  {
  }

  /** A chat is kept exactly when it is in the list and matches the query. */
  lemma {:induction false} FilterMembership(chats: seq<Chat>, query: string, c: Chat)
    ensures c in Filter(chats, query) <==> c in chats && Matches(c, query)
  {
    if chats != [] {
      FilterMembership(chats[1..], query, c);
      assert chats == [chats[0]] + chats[1..];
    }
  }

  /** Queries that lower-case to the same text give the same list. */
  lemma {:induction false} CaseInsensitive(chats: seq<Chat>, q1: string, q2: string)
    requires Text.ToLower(q1) == Text.ToLower(q2)
    ensures Filter(chats, q1) == Filter(chats, q2)
  {
    if chats != [] {
      CaseInsensitive(chats[1..], q1, q2);
    }
  }

  /** Lower-casing is idempotent, so a query and its lower-cased form give the same list. */
  lemma LowerQuerySameResult(chats: seq<Chat>, q: string)
    ensures Filter(chats, Text.ToLower(q)) == Filter(chats, q)
  {
    assert Text.ToLower(Text.ToLower(q)) == Text.ToLower(q);
    CaseInsensitive(chats, Text.ToLower(q), q);
  }

  /** A chat that matches a longer query matches every query the longer one contains. */
  lemma MatchesNarrowing(c: Chat, q: string, longer: string)
    requires Text.Contains(longer, q) && Matches(c, longer)
    ensures Matches(c, q)
  {
    Text.LowerKeepsContains(longer, q);
    if Text.Contains(Text.ToLower(c.title), Text.ToLower(longer)) {
      Text.ContainsTransitive(Text.ToLower(c.title), Text.ToLower(longer), Text.ToLower(q));
    } else {
      Text.ContainsTransitive(Text.ToLower(c.lastMessage), Text.ToLower(longer), Text.ToLower(q));
    }
  }

  /** Typing more narrows the list: what a longer query keeps, a query inside it keeps too. */
  lemma Narrowing(chats: seq<Chat>, q: string, longer: string)
    requires Text.Contains(longer, q)
    ensures forall c :: c in Filter(chats, longer) ==> c in Filter(chats, q)
  {
    forall c | c in Filter(chats, longer)
      ensures c in Filter(chats, q)
    {
      FilterMembership(chats, longer, c);
      MatchesNarrowing(c, q, longer);
      FilterMembership(chats, q, c);
    }
  }

  /** "No chats found" is shown exactly when no chat of the history matches. */
  lemma NoChatsFoundIff(query: string)
    ensures ListView(query) == NoChatsFound <==> forall c :: c in MockChats ==> !Matches(c, query)
  {
    if ListView(query) != NoChatsFound {
      var c := FilteredChats(query)[0];
      FilterMembership(MockChats, query, c);
    } else {
      forall c | c in MockChats ensures !Matches(c, query) {
        FilterMembership(MockChats, query, c);
      }
    }
  }

  /** An empty search shows the whole history. */
  lemma EmptySearchShowsHistory()
    ensures ListView("") == Listing(MockChats)
  {
    EmptyQueryKeepsAll(MockChats);
  }
}
