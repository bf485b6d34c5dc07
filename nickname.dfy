/**
 * The nick a verified member receives: the roster name followed by the
 * computing id in parentheses, shortened in up to two steps to stay within
 * Discord's 32-character limit.
 */
module Nickname {
  import opened Wrappers
  import opened Text

  const MaxNickLength := 32

  /** The " (id)" ending every derived nick carries. */
  function Tag(id: string): string
  {
    " (" + id + ")"
  }

  /**
   * The cascade of UVAuth.py:156-160: the full name, else its first word,
   * else the first letter of that word, each followed by the tag. The last
   * step is kept even when it is still too long. None stands for the
   * IndexError `split()[0]` raises when the full form is too long and the
   * name has no word at all.
   */
  function FormatNick(name: string, id: string): (r: Option<string>)
    ensures r.Some? ==> EndsWith(r.value, Tag(id))
    ensures |name + Tag(id)| <= MaxNickLength ==> r == Some(name + Tag(id))
    ensures r.None? <==> |name + Tag(id)| > MaxNickLength && AllSpace(name)
  {
    var nickname := name + Tag(id);
    if |nickname| <= MaxNickLength then Some(nickname)
    else match FirstWord(name)
      case None => None
      case Some(word) =>
        var shorter := word + Tag(id);
        if |shorter| <= MaxNickLength then Some(shorter)
        else Some([word[0]] + Tag(id))
  }

  /**
   * When the full form is too long, the nick is built from the first word
   * of the name (what `split()[0]` returns): the word itself when it fits,
   * its first letter otherwise.
   */
  lemma FormatNickCascade(name: string, id: string, word: string)
    requires |name + Tag(id)| > MaxNickLength
    requires IsFirstWord(name, word)
    ensures FormatNick(name, id) ==
              Some(if |word + Tag(id)| <= MaxNickLength then word + Tag(id) else [word[0]] + Tag(id))
  {
    var found := FirstWord(name);
    assert found.Some? by {
      var k :| WordAt(name, word, k);
      assert name[k] == word[0];
    }
    FirstWordUnique(name, found.value, word);
  }

  /** With an id of at most 28 characters and a name holding a word, the nick fits in 32 characters. */
  lemma FormatNickFits(name: string, id: string)
    requires |id| <= MaxNickLength - 4
    requires !AllSpace(name)
    ensures FormatNick(name, id).Some?
    ensures |FormatNick(name, id).value| <= MaxNickLength
  {
  }

  /** The nick shown for the example roster entry "Jane Doe" with id "ab3ef". */
  lemma FormatNickJaneDoe()
    ensures FormatNick("Jane Doe", "ab3ef") == Some("Jane Doe (ab3ef)")
  {
    assert "Jane Doe" + Tag("ab3ef") == "Jane Doe (ab3ef)";
  }
}
