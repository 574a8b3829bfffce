/**
  How the tag vocabularies of the three parsers relate: every tag the pull tokenizer
  knows has a stack-parser handler, and every tag with a handler passes the
  convert.py validator, which accepts strictly more.
 */
module Vocabulary {
  import StackParse
  import Convert
  import PullParse

  lemma PullTagsHaveHandlers()
    ensures PullParse.KnownTags <= StackParse.TagHandlers.Keys
  {
  }

  lemma HandledTagsAreExpected()
    ensures StackParse.TagHandlers.Keys <= Convert.ExpectedTags
  {
  }

  /** `i` passes the validator but has no handler, so the stack parser rejects it. */
  lemma ValidatorAcceptsMore()
    ensures "i" in Convert.ExpectedTags && "i" !in StackParse.TagHandlers
  {
  }
}
