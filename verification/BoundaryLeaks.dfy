/** Whether a registered value can still be read in text the SDK has protected. */
module SdkLeaks {
  import opened Seqs
  import opened Leaks
  import opened Tokens
  import opened SdkBoundary

  lemma {:induction false} SubstituteReplaces(values: set<string>, longest: Recognizer, mark: string -> string, s: string)
    requires forall t :: longest(t) == Longest(values, t)
    ensures Substitute(longest, mark, s) == Replaced(values, mark, s)
    decreases |s|
  {
    if s != "" {
      var k := Longest(values, s);
      SubstituteReplaces(values, longest, mark, s[(if k > 0 then k else 1)..]);
    }
  }

  /** Masking and redacting replace every value, leftmost and longest first. */
  lemma ProtectedReplaces(index: ValueIndex, text: string, mode: ProtectionMode)
    requires !mode.Block?
    ensures Protected(index, text, mode).Done?
    ensures Protected(index, text, mode).value.0 == Replaced(index.Keys, Replacer(index, mode), text)
  {
    CutWeaves(index.Keys, Finder(index.Keys), Replacer(index, mode), text);
    SubstituteReplaces(index.Keys, Finder(index.Keys), Replacer(index, mode), text);
  }

  /** No registered value occurs in any protected text. */
  ghost predicate NeverShows(index: ValueIndex, mode: ProtectionMode) {
    forall text: string, v <- index ::
      Protected(index, text, mode).Done? ==> !Occurs(Protected(index, text, mode).value.0, v)
  }

  lemma BlockedNeverShows(index: ValueIndex)
    ensures NeverShows(index, ProtectionMode.Block)
  {
  }

  lemma ShowsExactly(index: ValueIndex, mode: ProtectionMode)
    requires !mode.Block?
    ensures NeverShows(index, mode) <==> NeverOccurs(index.Keys, Replacer(index, mode))
  {
    forall text: string ensures Protected(index, text, mode).Done? && Protected(index, text, mode).value.0 == Replaced(index.Keys, Replacer(index, mode), text) {
      ProtectedReplaces(index, text, mode);
    }
    if NeverOccurs(index.Keys, Replacer(index, mode)) {
      forall text: string, v <- index ensures !Occurs(Protected(index, text, mode).value.0, v) {
        assert v in index.Keys;
      }
    }
    if NeverShows(index, mode) {
      forall text: string, v <- index.Keys, i: nat ensures !StartsAt(Replaced(index.Keys, Replacer(index, mode), text), i, v) {
        assert v in index && !Occurs(Protected(index, text, mode).value.0, v);
      }
    }
  }

  /** Values clear of every replacement can be read in no protected text. */
  lemma ClearNeverShows(index: ValueIndex, mode: ProtectionMode)
    requires !mode.Block? && "" !in index
    requires forall v <- index, w <- index :: ClearOf(v, Replacement(index, mode, w))
    ensures NeverShows(index, mode)
  {
    ClearNeverOccurs(index.Keys, Replacer(index, mode));
    ShowsExactly(index, mode);
  }

  /** With one registered value: exactly when it can be read in protected text. */
  lemma OneRegisteredExactly(index: ValueIndex, v: string, mode: ProtectionMode)
    requires !mode.Block? && v != "" && index.Keys == {v}
    ensures var mark := Replacement(index, mode, v);
            NeverShows(index, mode) <==> !StartsWithin(v, mark) && forall n :: 0 < n < |v| ==> !Exposed(v, n, mark)
  {
    OneExactly(v, Replacer(index, mode));
    ShowsExactly(index, mode);
  }

  /** A value that is part of its own replacement shows, whatever else is registered. */
  lemma OwnReplacementShows(index: ValueIndex, v: string, mode: ProtectionMode)
    requires !mode.Block? && "" !in index && v in index && Occurs(Replacement(index, mode, v), v)
    ensures Protected(index, v, mode).Done? && Protected(index, v, mode).value.0 == Replacement(index, mode, v)
    ensures !NeverShows(index, mode)
  {
    OwnMarkLeaks(index.Keys, Replacer(index, mode), v);
    ProtectedReplaces(index, v, mode);
    ShowsExactly(index, mode);
  }

  lemma NameInReference(kind: TokenKind, hex: string)
    ensures Occurs(Reference(kind, hex), KindName(kind))
  {
    var name := KindName(kind);
    assert Occurs(name, name) by { assert StartsAt(name, 0, name); }
    OccursWithin(HEAD, name, ":" + hex + "}}", name);
    assert Reference(kind, hex) == HEAD + name + (":" + hex + "}}");
  }

  /** Such a value: a credential `SECRET`, which its reference names as its kind. */
  lemma SecretShows(index: ValueIndex, hex: string)
    requires "" !in index && KindName(Credential) in index && index[KindName(Credential)] == (Credential, Reference(Credential, hex))
    ensures Occurs(Protected(index, KindName(Credential), Mask).value.0, KindName(Credential)) && !NeverShows(index, Mask)
  {
    NameInReference(Credential, hex);
    OwnReplacementShows(index, KindName(Credential), Mask);
  }
}
