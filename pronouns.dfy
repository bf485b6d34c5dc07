/**
 * Self-service pronoun roles: reacting in the "pronouns" channel with one
 * of six heart symbols grants the matching role, taking the reaction away
 * removes it again, and any other reaction is taken back by the bot.
 */
module Pronouns {
  import opened Members

  /** The only channel whose reactions the handlers act on. */
  const PronounChannel := "pronouns"

  const Red := "\U{2764}\U{FE0F}"
  const Yellow := "\U{1F49B}"
  const Green := "\U{1F49A}"
  const Orange := "\U{1F9E1}"
  const Blue := "\U{1F499}"
  const Purple := "\U{1F49C}"

  /** The PRONOUNS table: reaction symbol to role name. */
  const Table: map<string, string> := map[
    Red := "they/them",
    Yellow := "he/him",
    Green := "any pronouns",
    Orange := "she/her",
    Blue := "just my name",
    Purple := "please ask"
  ]

  lemma TableKeys()
    ensures Table.Keys == {Red, Yellow, Green, Orange, Blue, Purple}
    ensures |Table.Keys| == 6
  {
    assert Red[0] != Yellow[0] && Red[0] != Green[0] && Red[0] != Orange[0] && Red[0] != Blue[0] && Red[0] != Purple[0];
    assert Yellow[0] != Green[0] && Yellow[0] != Orange[0] && Yellow[0] != Blue[0] && Yellow[0] != Purple[0];
    assert Green[0] != Orange[0] && Green[0] != Blue[0] && Green[0] != Purple[0];
    assert Orange[0] != Blue[0] && Orange[0] != Purple[0] && Blue[0] != Purple[0];
  }

  /** Every role of the table starts with a letter of its own. */
  lemma TableInitials(s: string)
    requires s in Table
    ensures |Table[s]| > 0
    ensures Table[s][0] == (if s == Red then 't' else if s == Yellow then 'h' else if s == Green then 'a'
                            else if s == Orange then 's' else if s == Blue then 'j' else 'p')
  {
    TableKeys();
  }

  lemma TableInjective()
    ensures forall s, t :: s in Table && t in Table && s != t ==> Table[s] != Table[t]
  {
    forall s, t | s in Table && t in Table && s != t
      ensures Table[s] != Table[t]
    {
      TableKeys();
      TableInitials(s);
      TableInitials(t);
    }
  }

  /**
   * Six symbols, six different roles, none of them the Unverified or the
   * Staff role: a reaction never touches verification state.
   */
  lemma TableShape()
    ensures |Table.Keys| == 6
    ensures forall s, t :: s in Table && t in Table && s != t ==> Table[s] != Table[t]
    ensures forall s :: s in Table ==> Table[s] != Unverified && Table[s] != Staff
  {
    TableKeys();
    TableInjective();
    forall s | s in Table
      ensures Table[s] != Unverified && Table[s] != Staff
    {
      TableInitials(s);
    }
  }

  /**
   * `on_raw_reaction_add`: in the pronouns channel a known symbol adds its
   * role; an unknown symbol is retracted (`retracted`) and the roles stay.
   */
  method OnReactionAdd(channel: string, symbol: string, m: Member) returns (after: Member, retracted: bool)
    ensures channel != PronounChannel ==> after == m && !retracted
    ensures channel == PronounChannel && symbol in Table ==>
              after == m.(roles := m.roles + {Table[symbol]}) && !retracted
    ensures channel == PronounChannel && symbol !in Table ==> after == m && retracted
    ensures (Unverified in after.roles) == (Unverified in m.roles)
    ensures (Staff in after.roles) == (Staff in m.roles)
  {
    after, retracted := m, false;
    if channel != PronounChannel {
      return;
    }
    if symbol in Table {
      TableShape();
      after := m.(roles := m.roles + {Table[symbol]});
    } else {
      retracted := true;
    }
  }

  /**
   * `on_raw_reaction_remove`: in the pronouns channel a known symbol
   * removes its role; anything else changes nothing.
   */
  method OnReactionRemove(channel: string, symbol: string, m: Member) returns (after: Member)
    ensures channel == PronounChannel && symbol in Table ==>
              after == m.(roles := m.roles - {Table[symbol]})
    ensures channel != PronounChannel || symbol !in Table ==> after == m
    ensures (Unverified in after.roles) == (Unverified in m.roles)
    ensures (Staff in after.roles) == (Staff in m.roles)
  {
    after := m;
    if channel == PronounChannel && symbol in Table {
      TableShape();
      after := m.(roles := m.roles - {Table[symbol]});
    }
  }

  /**
   * Removing a reaction undoes adding it, for a role the member did not
   * hold before; the roles of other symbols are not affected.
   */
  lemma RemoveUndoesAdd(symbol: string, other: string, roles: set<string>)
    requires symbol in Table && other in Table && symbol != other
    requires Table[symbol] !in roles
    ensures (roles + {Table[symbol]}) - {Table[symbol]} == roles
    ensures (Table[other] in (roles + {Table[symbol]}) - {Table[symbol]}) == (Table[other] in roles)
  {
    TableShape();
  }
}
