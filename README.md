# xmlschema content models and validation policies in Dafny

This project models the decision logic at the centre of xmlschema, a Python library that
validates and decodes XML documents against XML Schema (XSD 1.0 and 1.1) and encodes data
back to XML. It proves properties of that model. It covers:

- **Content models** (`models.dfy`, `content.dfy`, `particles.dfy`):
  - particle trees of sequence, choice and all groups with element and wildcard leaves;
  - the Unique Particle Attribution and Element Declarations Consistent checks (sections
    3.8.6.4 and 3.8.6.3 of XML Schema 1.1 Part 1) that `check_model` and
    `distinguishable_paths` implement;
  - the `ModelVisitor` automaton, a class whose occurrence counter, current element and
    group stack its methods update;
  - the reordering of encoder content into model order.
- **Model groups** (`groups.dfy`, `group_encoding.dfy`):
  - the restriction checks of derivation by restriction and the depth-limited model check;
  - the decoding and encoding drivers that feed children through the visitor and index
    their errors.
- **Wildcards** (`wildcards.dfy`): the namespace constraint, its parsing, membership,
  overlap, restriction, union and intersection (section 3.10 of XML Schema 1.1 Part 1),
  and open content.
- **Element particles** (`elements.dfy`):
  - name and substitution-group matching, `is_single`, overlap and consistency;
  - the xsi:nil, abstract and fixed/default decisions of decoding.
- **Simple types and facets** (`facets.dfy`, `simple_types.dfy`, `simple_decoding.dfy`):
  - parsing of facets against their base facets;
  - the values each facet accepts, facet-set consistency and effective bounds;
  - white-space normalisation;
  - list and union decoding.
- **Attributes** (`attributes.dfy`): the default/fixed value constraints of one attribute
  and the decoding of an element's attributes by an attribute group.
- **Validation policy** (`validation.dfy`, `xsdbase.dfy`, `schemas.dfy`):
  - strict mode raises, lax collects, skip drops;
  - validity and build status, and the parse-error policy;
  - QName resolution and the vc:minVersion/vc:maxVersion filter;
  - the shaping of decode and encode results.
- **Converter** (`converters.dfy`): the key and merge rules of the default converter
  between decoded elements and dictionaries.
- **Arguments** (`arguments.dfy`): validated, set-once descriptor arguments.
- **Regular expressions** (`regex.dfy`):
  - the expansion of XSD regex character groups into code points, and their compression
    back;
  - the code-point sets and character-group objects;
  - the translation of an XSD regex into a Python one.
- **Shared helpers** (`strs.dfy`, `wrappers.dfy`): the Python string operations used
  (strip, split, startswith) and Option/Result values.

Python exceptions are modelled as `Result`/`Option` error values or as explicit
`raised`/`error` out-parameters. Generators are modelled as the sequence of items they
yield. Object identity (Counter keys, `is`, `list.index`) is modelled by a unique `id` on
every particle. Mutable objects are modelled as classes: `ModelVisitor`,
`ValidationContext`, `XsdValidator`, `XsdWildcard`, `XsdAttributeGroup`, `XsdFacet`,
`XsdSimpleType`, `XMLSchemaConverter`, `UnicodeSubset`, `XsdRegexCharGroup` and the
argument descriptors.

Callbacks and tables that the code takes from elsewhere are parameters of the model:
- atomic value decoding;
- the namespace mapper's `map_qname`/`unmap_qname`;
- the Unicode category and block tables;
- the global element map.

Where the documented behaviour and the code differ, the model follows the code. For
example, `groups.py` is an older revision than `models.py`: its `check_model` is recursive
with a depth parameter, and the model follows each file where that file is used.

Each row of "## Findings" gives a member that models the code as written and a corrected
member. The members that use such a definition (the drivers: the model check, the group
encoder, the parse-error policy, `version_check` and the regex translation) call the
corrected one. So on the inputs named in a Findings row they do what the corrected
definition does, not what the source does. "## Left out" names each of these members.

## Model

| member | source | states |
|---|---|---|
| Particles.OccursRestrictionMeaning | tests/validators/test_particles.py:78-109 | the occurrence-restriction check holds exactly when every count the particle admits is also admitted by the other one |
| Arguments.ValidateType | xmlschema/arguments.py:93-132 | passes exactly when the value is an allowed None, an instance of a listed type (a bool counting as an int), an allowed callable, or when no check is asked for; any failure is a type error |
| Arguments.ValidateChoice | xmlschema/arguments.py:146-149 | a value error exactly when the value equals none of the choices |
| Arguments.ValidateMinimum | xmlschema/arguments.py:152-155 | for a number, a value error exactly when it is below the minimum; comparing anything else with an int is a type error |
| Arguments.RunFrom | xmlschema/arguments.py:74-77 | succeeds exactly when every remaining validator accepts the value; an error is the error of one of them |
| Arguments.ValidatedValue | xmlschema/arguments.py:74-77 | the validators run in order; the value comes back unchanged when all accept, otherwise the first error is returned |
| Arguments.TimeoutAccepts | xmlschema/arguments.py:228-229 | a timeout is accepted exactly when it is a number of at least one; a non-number is a type error |
| Arguments.LazyAccepts | xmlschema/arguments.py:232-233 | lazy is accepted exactly when it is a bool or an int that is not negative; anything else is a type error |
| Arguments.Instance.constructor | xmlschema/arguments.py:45-46 | a new instance has no argument set |
| Arguments.Instance.Get | xmlschema/arguments.py:53-64 | the value once set; else the default of an Option; else an attribute error saying the argument is not set |
| Arguments.Instance.Set | xmlschema/arguments.py:66-69 | an argument already set cannot change and stays as it was; otherwise it is stored exactly when its validators accept the value |
| Arguments.Instance.Delete | xmlschema/arguments.py:71-72 | deleting always fails with "can't delete" |
| Arguments.ClassGet | xmlschema/arguments.py:53-64 | read from the class, an Option gives its default and a plain argument fails |
| Arguments.SetTwice | xmlschema/arguments.py:66-69 | after a first successful set, the value reads back and a second set fails |
| Models.Next | xmlschema/validators/models.py:213 | next(items, None) gives the first particle the iterator still yields, and what it yields afterwards is the rest; an exhausted iterator gives None |
| Models.IterGroup | xmlschema/validators/models.py:259-266 | the iterator of a group starts at the front of its source |
| Models.NotOver | xmlschema/validators/models.py:266 | keeps exactly the particles not yet at their maximum count |
| Models.RemainingPlain | xmlschema/validators/models.py:262-264 | a plain iterator yields the rest of its source, in order |
| Models.RemainingFiltered | xmlschema/validators/models.py:266 | the filtered iterator of an all group yields the rest of its source that is not over its maximum |
| Models.IterGroupYields | xmlschema/validators/models.py:259-266 | nothing under maxOccurs 0; the items of a sequence or choice; for an all group only its elements not yet over their maximum |
| Models.FirstLeafOf | xmlschema/validators/models.py:211-225 | what _start reaches from a list of pending particles is a leaf, if anything |
| Models.FirstLeafOfGroup | xmlschema/validators/models.py:221-225 | a non-empty group met first is entered: what its iterator yields comes before the rest |
| Models.FirstLeafOfLeaf | xmlschema/validators/models.py:218-220 | a leaf met first is the element _start stops at |
| Models.FirstLeafOfEmpty | xmlschema/validators/models.py:221 | an empty group met first is passed over |
| Models.IndexOf | xmlschema/validators/models.py:53-54 | list.index gives the first position of the particle, and None stands for the ValueError of a missing one |
| Models.FirstAbsent | xmlschema/validators/models.py:40-47 | the first position of path1 whose particle is not in path2, every earlier one being in path2 |
| Models.PathFlags | xmlschema/validators/models.py:62-78 | the loop over the groups of a path below the parting depth only ever turns the before and after flags on |
| Models.Distinguishable | xmlschema/validators/models.py:31-93 | an empty first path is an IndexError; paths that part at their first particle, or below a group with maxOccurs 0, are distinguishable |
| Models.DistinguishablePaths | xmlschema/validators/models.py:31-93 | the loops of distinguishable_paths compute exactly Distinguishable |
| Models.FindAbsent | xmlschema/validators/models.py:40-47 | the search loop finds exactly FirstAbsent |
| Models.PassFlags | xmlschema/validators/models.py:62-78 | each pass over a path computes exactly PathFlags |
| Models.DistinguishableAtLast | xmlschema/validators/models.py:49-93 | paths parting at their last position are decided from the flags of the parting group alone |
| Models.PartAtLast | xmlschema/validators/models.py:40-47 | paths of a model sharing all but their last particle part at that position, under a common group |
| Models.SiblingLeaves | xmlschema/validators/models.py:80-89 | two different sibling leaves of a choice or all group are not distinguishable; in a sequence occurring once, the later one is distinguishable exactly when a required particle lies between them or the first is univocal |
| Models.PrecedenceOr | xmlschema/validators/models.py:146-152 | an overlap between an XSD 1.1 wildcard and an element records one precedence for that wildcard over that element; every other overlap is the given error |
| Models.PairCheck | xmlschema/validators/models.py:136-166 | the Element Declarations Consistent error exactly when the leaves (or the open content wildcard) are inconsistent; a same-group error only for siblings of a choice or all group; a Unique Particle Attribution error only for overlapping leaves whose paths are not distinguishable; a precedence only for an XSD 1.1 wildcard overlapping an element |
| Models.PairCheckReports | xmlschema/validators/models.py:143-166 | consistent, distinct, overlapping leaves that no precedence resolves are the same-group error as siblings of a choice or all group; otherwise, unless they are sequence siblings after a univocal particle, they are the Unique Particle Attribution error exactly when their paths are not distinguishable, and pass exactly when they are |
| Models.PrecedenceResolves | xmlschema/validators/models.py:143-166 | an overlap between an XSD 1.1 wildcard and an element is never an ambiguity error: it records a precedence |
| Models.PairChecksStep | xmlschema/validators/models.py:136 | the checks against the earlier leaves are the first pair's check followed by the rest |
| Models.PairChecksMeaning | xmlschema/validators/models.py:136-166 | a leaf passes exactly when every pair passes; a failure is the error of the first failing pair |
| Models.PairChecksOk | xmlschema/validators/models.py:136-166 | a leaf passes exactly when every pair passes |
| Models.PairChecksFirstError | xmlschema/validators/models.py:136-166 | a failure is the error of the first failing pair, all pairs before it passing |
| Models.PutPath | xmlschema/validators/models.py:168 | paths[name] = entry keeps the names unique, holds the new entry, and keeps every other name's entry |
| Models.EnterGroup | xmlschema/validators/models.py:110-116 | entering a group adds one iterator, keeps the depth bound, shrinks what is left to visit, and breaks the bound once the stack holds more than maxDepth iterators |
| Models.PassLeaf | xmlschema/validators/models.py:117-118 | yielding a leaf keeps the depth bound and shrinks what is left to visit |
| Models.LeaveGroup | xmlschema/validators/models.py:119-124 | dropping an exhausted iterator keeps the depth bound and what is left to visit |
| Models.WalkStart | xmlschema/validators/models.py:104-107 | the walk starts with one iterator at the root, within the bound exactly when the model is not too deep |
| Models.CheckModel | xmlschema/validators/models.py:96-168 | the depth error only for a model nested deeper than the limit; success only for a model within it |
| Models.VisitLeaf | xmlschema/validators/models.py:136-168 | the leaf's checks against the earlier leaves, then its entry stored under its name; a failure is the first failing pair's error |
| Models.CheckLeaf | xmlschema/validators/models.py:136-166 | the loop over the earlier leaves computes exactly PairChecks |
| Models.Missing | xmlschema/validators/models.py:238-240 | exactly the particles whose minimum the counter does not meet |
| Models.ExpectedOf | xmlschema/validators/models.py:228-248 | what expected lists is made of leaves |
| Models.ExpectedMeaning | xmlschema/validators/models.py:228-248 | every leaf of a choice is expected; elsewhere a leaf below its minimum is expected, and nothing is expected once every item meets its minimum |
| Models.FirstOccurring | xmlschema/validators/models.py:324-327 | the first item of the group with a non-zero count |
| Models.MinGroupOccurs | xmlschema/validators/models.py:300-305 | the fewest repetitions of the choice that hold the item's occurrences |
| Models.MaxGroupOccurs | xmlschema/validators/models.py:307 | the most repetitions the occurrences can fill, and at least one |
| Models.SequenceClosed | xmlschema/validators/models.py:323-339 | when some item occurred, the group gains at least one occurrence and its maximum count does not drop; no other counter changes |
| Models.ChoiceStopped | xmlschema/validators/models.py:295-313 | a zero maxOccurs is a ZeroDivisionError; otherwise the group gains the fewest repetitions holding the item's occurrences, its maximum count grows, the item's count is reset, and nothing else changes |
| Models.ModelVisitor.constructor | xmlschema/validators/models.py:190-198 | a new visitor has an empty counter and stands at the first element of the model |
| Models.ModelVisitor.Clear | xmlschema/validators/models.py:203-209 | no stacked groups, an empty counter, no element, the root as current group |
| Models.ModelVisitor.Restart | xmlschema/validators/models.py:250-252 | an empty counter and the first element of the model |
| Models.ModelVisitor.Start | xmlschema/validators/models.py:211-225 | _start stops at the first leaf of what is still pending, and leaves the counter alone |
| Models.ModelVisitor.Pop | xmlschema/validators/models.py:216 | the top frame becomes the current group, iterator and match flag |
| Models.ModelVisitor.Push | xmlschema/validators/models.py:222-225 | the current group is stacked and the inner group's iterator comes first in what is pending |
| Models.ModelVisitor.StartStep | xmlschema/validators/models.py:212-225 | one turn of _start either ends at the first pending leaf or keeps it while what is pending shrinks |
| Models.ChildLeaves | xmlschema/validators/models.py:259-266 | every leaf under an item a group's iterator yields is a leaf under the group |
| Models.StackPathLeaves | xmlschema/validators/models.py:220-225 | every leaf under the current group, reached from the root through the stacked groups, is a leaf of the model |
| Models.YieldedLeaf | xmlschema/validators/models.py:218-219 | an element the current group's iterator yields, and so every current element of the visitor, is a leaf of the model |
| Models.ModelVisitor.Expected | xmlschema/validators/models.py:228-248 | the expected particles are leaves |
| Models.ModelVisitor.CloseSequence | xmlschema/validators/models.py:323-339 | only the counter changes, as SequenceClosed says |
| Models.ModelVisitor.CountFirstOccurring | xmlschema/validators/models.py:328-339 | only the counter changes, by the occurrences of the first item that occurred |
| Models.ModelVisitor.StopInChoice | xmlschema/validators/models.py:295-313 | an item with no occurrences changes nothing; otherwise the counter becomes ChoiceStopped and the iterator restarts, answering whether the item is missing |
| Models.StopItemSpec | xmlschema/validators/models.py:275-284 | stop_item as a function of the visit state: it keeps the stacked groups well formed and never grows the stack, and its only errors are IndexError and ZeroDivisionError |
| Models.StopIn | xmlschema/validators/models.py:285-341 | the decision once item's group is current; same guarantees as StopItemSpec |
| Models.StopItemPops | xmlschema/validators/models.py:282-283 | stopping a group at the outermost level raises IndexError and changes nothing; otherwise the enclosing frame becomes current and the decision is made there |
| Models.StopInChoiceCases | xmlschema/validators/models.py:285-308 | in a choice an item that never occurred stops nothing; one that occurred is reported exactly when its most occurrences are under its minimum, divides by zero exactly when its maximum is 0, restarts the choice with the item's count at 0 and at least one more repetition of the choice; an all group stops nothing |
| Models.StopInSequenceCases | xmlschema/validators/models.py:309-341 | in a sequence an unmatched, never-occurring item stops nothing when emptiable, stops the enclosing group (popping the stack) when nested, and at the outermost group is reported exactly when the group is under its minimum (IndexError otherwise); a matched or occurring item marks the sequence matched, the last item closes the sequence, and the item is reported exactly when its count under the new counter is under its minimum; an empty sequence raises IndexError |
| Models.ModelVisitor.StopItem | xmlschema/validators/models.py:275-341 | the result and the new visit state are exactly StopItemSpec of the old state; stopping a group that succeeds pops the stack |
| Models.ModelVisitor.StopInGroup | xmlschema/validators/models.py:285-321 | the result and the new visit state are exactly StopIn of the old state |
| Models.ModelVisitor.StopInSequence | xmlschema/validators/models.py:309-341 | the result and the new visit state are exactly StopIn of the old state, the stack left alone |
| Models.ModelVisitor.AdvanceStep | xmlschema/validators/models.py:363-405 | a turn that leaves the loop stands at a new element of the current group |
| Models.ModelVisitor.StopOver | xmlschema/validators/models.py:364-365 | after the inner loop the current group is no longer over its maximum |
| Models.ModelVisitor.GroupExhausted | xmlschema/validators/models.py:381-405 | the branches for an exhausted iterator never leave the loop and keep the element; an unmatched group yields exactly its own violation, with its count and what it expects, when stop_item of the group (after an all group is counted as satisfied) answers true and it expects something, and nothing otherwise; a matched sequence or choice restarts its iterator; a matched all group with a missing member yields its violation only when its minimum is 0, then returns to the enclosing group, the IndexError of an empty stack ending the visit |
| Models.ModelVisitor.Advance | xmlschema/validators/models.py:268-416 | an ended visitor raises and changes nothing; a match not reaching the maximum adds exactly one to the element's count and changes nothing else; a match that pauses the visit yields nothing; otherwise the element's own violation comes first exactly when stop_item of the element (StopItemSpec on the state after the match is counted) answers true; the violations yielded are, first and at most once, the element itself with its count after the match and itself as expected, then violations of groups, each listing what the group expected under the counter of the time; an IndexError never escapes |
| Models.ModelVisitor.CountMatch | xmlschema/validators/models.py:347-355 | counting a match adds exactly one to the element's count and marks the group matched (restarting the iteration of an all group), and pauses the visit exactly when the element stays under its maximum or is ambiguous in a choice, outside an all group |
| Models.ModelVisitor.AdvanceValid | xmlschema/validators/models.py:268-416 | advancing a visitor that has an element keeps it valid and never lets the end of the visit or an IndexError escape |
| Models.ModelVisitor.AdvanceFrom | xmlschema/validators/models.py:365-416 | after the match is counted, the element's own violation comes first exactly when StopItemSpec of the current state answers true; later violations are group violations; an IndexError never escapes |
| Models.ModelVisitor.AdvanceLoop | xmlschema/validators/models.py:363-405 | the turns after stop_item keep the first violation as it was and add only group violations; the loop ends by leaving at an element of the current group or by an error |
| Models.ModelVisitor.EndVisit | xmlschema/validators/models.py:404-415 | the visit ends with no element; the group is reported, with its count and what it expects under the counter, exactly when it is missing (a choice always, a sequence only after an item was taken, an all group only with a missing member) or has passed its maximum |
| Models.ModelVisitor.Stop | xmlschema/validators/models.py:254-257 | stop advances without a match until the visit ends; each violation is a group violation listing what the group expected, or an element violation expecting that element |
| Content.SortCData | xmlschema/validators/models.py:457-465 | the character data parts ordered by index, as a permutation of the input (equal indexes are not ordered by value; see Left out) |
| Content.Append | xmlschema/validators/models.py:467-469 | consumable_content[k].append(v): the value joins the end of its name's queue, a new name is added last, other queues are untouched |
| Content.Delete | xmlschema/validators/models.py:479-480 | del consumable_content[name] empties that name's queue and only that one |
| Content.PopLeft | xmlschema/validators/models.py:478 | popleft drops the first value of one queue and keeps the names |
| Content.Take | xmlschema/validators/models.py:478-480 | popleft, then deletion of a queue left empty: one value less in that queue only |
| Content.ConsumableContent | xmlschema/validators/models.py:465-469 | each name's queue holds that name's values in input order, and no queue is empty |
| Content.FirstMatching | xmlschema/validators/models.py:476-477 | the search finds the first name the current element matches, or none |
| Content.PopCData | xmlschema/validators/models.py:472-473 | yielding the next character data part moves it from the pending list to the output, nothing else |
| Content.TakeQueued | xmlschema/validators/models.py:476-480 | one value moves from its queue to the output; every name's values, output and queued together, stay the same |
| Content.PlaceByModel | xmlschema/validators/models.py:475-489 | the model-driven loop only moves values from the queues, and character data from the pending list, to the output; each value placed is one whose name a leaf of this model (one of `ModelLeaves(model.root)`) matches; without an error it ends only when the model has ended or no content is left |
| Content.PlaceKey | xmlschema/validators/models.py:478-486 | one turn where the current element matches a buffered name: exactly the first queued value of that name is placed, and its name is matched by the current element, a leaf of the model |
| Content.PutRemaining | xmlschema/validators/models.py:492-496 | the values left in the queues are appended, name by name |
| Content.IterUnorderedContent | xmlschema/validators/models.py:433-499 | the names come out as the ones the model placed, each matched by a leaf of the model rooted at the group, followed by the unplaced ones; without an error either the visit of the model ended or every name was placed and nothing is appended after them; every value of every name comes out once, in its input order; the character data parts come out ordered by index, as a permutation of the input's (equal indexes as in SortCData) |
| Content.LeafCountsRelax | xmlschema/validators/wildcards.py:676-681 | the occurrence counter only lifts precedences: a leaf matching a name without counts matches it with any counts |
| Content.PrecedenceBlocks | xmlschema/validators/wildcards.py:676-681 | for every XSD 1.1 wildcard leaf and every counter, a matching element with a precedence over the wildcard in the current group that is not over its maximum keeps the name from the wildcard (also without counts) |
| Content.PrecedenceLifted | xmlschema/validators/wildcards.py:676-681 | for every XSD 1.1 wildcard leaf and every counter, when every matching element with a precedence is over its maximum, the wildcard matches the name exactly as it would with no precedences |
| Content.PrecedenceEndsAtMax | xmlschema/validators/wildcards.py:676-681 | an example of the two lemmas above: in an all group holding a (maxOccurs 1) and a wildcard that a takes precedence over, the first a is not the wildcard's and, once a has occurred, the next a is |
| Content.PutQueue | xmlschema/validators/models.py:493-496 | appends one name's values in order, with character data between them |
| Content.PutOne | xmlschema/validators/models.py:494-496 | appends one value, followed by the next character data part if any |
| Content.SortContent | xmlschema/validators/models.py:502-505 | the list form of iter_unordered_content keeps every name's values and the character data ordered by index (equal indexes as in SortCData) |
| Content.Yield | xmlschema/validators/models.py:533 | a yield adds exactly that item at the end of the output |
| Content.AdvanceDiscarding | xmlschema/validators/models.py:481-482 | advancing the visitor with its violations dropped keeps it valid; an IndexError never escapes |
| Content.TakeBuffered | xmlschema/validators/models.py:554-561 | an item moves from the buffer to the output, or an empty queue is dropped; nothing is lost |
| Content.ReleaseOrHold | xmlschema/validators/models.py:545-562 | when the current element does not match the item: a buffered key it matches is released, else a repetition of the previous name is buffered, else the visitor advances; nothing is lost or duplicated; with an empty buffer and a new name nothing is buffered or yielded |
| Content.PutAllCData | xmlschema/validators/models.py:498-499 | the character data left over is yielded in its original order after everything else, and no tag or value is added |
| Content.CollapseTurn | xmlschema/validators/models.py:537-562 | one turn of the placing loop: a matched item is yielded, a repeated name is buffered, or a buffered item is released, or the visitor advances; nothing is lost; with an empty buffer and a new name nothing is buffered and the item comes out only when the turn ends the loop |
| Content.PlaceCollapsed | xmlschema/validators/models.py:536-566 | the placing loop for one item yields it or buffers it, with the buffered items it releases; nothing is lost; the item's name becomes the previous name; with an empty buffer and a name different from the previous one, the item is appended as is and the buffer stays empty |
| Content.CollapseItem | xmlschema/validators/models.py:531-566 | one input item ends up in the output or in the buffer; character data and any item after the visit ended come out at once and change nothing else; with an empty buffer and no repeated name the item comes out as is |
| Content.Flush | xmlschema/validators/models.py:568-570 | the buffered items are all appended, and nothing when the buffer is empty |
| Content.FlushQueue | xmlschema/validators/models.py:569-570 | one name's buffered values are all appended |
| Content.LastTagName | xmlschema/validators/models.py:539-565 | the previous name is defined exactly when some child item came before |
| Content.InOrderStep | xmlschema/validators/models.py:531-566 | in a content where no child repeats the name of the child before it, each item keeps the output equal to the input so far and the buffer empty |
| Content.CollapseNext | xmlschema/validators/models.py:531-566 | one item of the for loop: output and buffer hold one more input item; without repeated names the output is the input so far |
| Content.CollapseAll | xmlschema/validators/models.py:531-566 | output and buffer together hold exactly the input items, and character data keeps its input order; without repeated names the output is the input and the buffer is empty |
| Content.IterCollapsedContent | xmlschema/validators/models.py:508-570 | the output is a permutation of the input, with the character data parts in input order; a content where no child repeats the name of the child before it (character data aside) comes out unchanged |
| Groups.AdmitsRestriction | xmlschema/validators/groups.py:300-308 | the same model is always admitted; all admits only sequence; choice and sequence admit each other, and any model when they hold at most one particle |
| Groups.EmptyGroupYieldsNothing | xmlschema/validators/groups.py:310-311 | an empty group yields nothing to the visitor; for a non-mixed sequence or choice, being empty is exactly yielding nothing |
| Groups.AddMax | xmlschema/validators/groups.py:362-366 | a sum of maximum counts is unbounded exactly when one of them is |
| Groups.IsElementRestriction | xmlschema/validators/groups.py:340-374 | the loop over the items computes exactly ElementRestriction |
| Groups.SumsAdmit | xmlschema/validators/groups.py:357-366 | counts each admitted by their item add up to a count admitted by the summed occurrence range |
| Groups.ElementRestrictionAdmits | xmlschema/validators/groups.py:354-374 | when a sequence restricts an element, every choice of item counts adds up to a count the element admits, and no item is a group |
| Groups.MaxMax | xmlschema/validators/groups.py:458-462 | the running maximum of the base items' maximum counts is unbounded exactly when one is, and bounds both |
| Groups.FirstRestricting | xmlschema/validators/groups.py:450-451 | the first remaining restriction item that restricts the base item, or none |
| Groups.RemoveAt | xmlschema/validators/groups.py:466 | restriction_items.remove(item) drops one item and keeps the others |
| Groups.ScanFrom | xmlschema/validators/groups.py:449-466 | the scan over the base items only ever removes restriction items, at most one per base item |
| Groups.IsChoiceRestriction | xmlschema/validators/groups.py:435-486 | the nested loops compute exactly ChoiceRestriction |
| Groups.FindRestricting | xmlschema/validators/groups.py:450-463 | finds a particle exactly when some remaining particle restricts base particle j, and returns the position of the first such one |
| Groups.MatchedWithin | xmlschema/validators/groups.py:449-466 | every pair the scan matches joins a restriction item to a later base item it restricts |
| Groups.MatchedOrdered | xmlschema/validators/groups.py:449-466 | the base items of the matched pairs are in increasing order |
| Groups.MatchedAccounts | xmlschema/validators/groups.py:449-466 | each restriction item is either still remaining or matched |
| Groups.ChoiceRestrictionMaps | xmlschema/validators/groups.py:435-486 | an accepted choice restriction maps the restriction items one to one onto base items they restrict, and a reference or a global group only restricts a global base |
| Groups.CheckModel | xmlschema/validators/groups.py:488-545 | the recursive walk raises the depth error only when the model is at least as deep as the limit, and always for a zero limit |
| Groups.FirstMatchFrom | xmlschema/validators/groups.py:636-638 | the first element from position k that matches the name, or none |
| Groups.MatchElement | xmlschema/validators/groups.py:631-638 | match_element gives an element of the group matching the name, and None exactly when none matches |
| Groups.Indexed | xmlschema/validators/groups.py:773-775 | the violations from model.stop() carry the index len(elem) |
| Groups.MatchChild | xmlschema/validators/groups.py:697-739 | the errors of a child carry its index; once the model is broken it stays broken; an unmatched child adds an error and matches no element of the group; leaves and the interleave wildcard are matched with the visitor's occurrence counter |
| Groups.AddChildOk | xmlschema/validators/groups.py:757-761 | a decoded child joins the result list in child order |
| Groups.AddTailOk | xmlschema/validators/groups.py:763-771 | a stripped non-empty tail is joined to the last character data part or appended under the next index |
| Groups.KeepChildData | xmlschema/validators/groups.py:757-771 | one child's results and tail keep the result list in order |
| Groups.ChildErrorsAt | xmlschema/validators/groups.py:697-739 | the errors of a child carry an index no greater than its own |
| Groups.ChildErrorsAtEnd | xmlschema/validators/groups.py:773-775 | the errors of the model's end carry the index len(elem) |
| Groups.VisitChild | xmlschema/validators/groups.py:695-771 | one turn of the child loop keeps the errors indexed and the result list in order |
| Groups.WalkChildren | xmlschema/validators/groups.py:695-775 | the child loop and model.stop() give errors indexed by child position and the result list in order |
| Groups.StopChildren | xmlschema/validators/groups.py:773-776 | after the last child, what the model still expects is reported at position len(elem), keeping every earlier error's position; no model left means no further error |
| Groups.TextPart | xmlschema/validators/groups.py:669-673 | the element's text is kept, stripped, as character data part 1 exactly when it is not whitespace |
| Groups.KeptAtStart | xmlschema/validators/groups.py:660-673 | the result list starts with the text part, or empty once character data is rejected |
| Groups.DecodedIntro | xmlschema/validators/groups.py:660-667 | rejected character data adds one "not allowed" error ahead of the child errors |
| Groups.DecodeBody | xmlschema/validators/groups.py:659-782 | the decoded result and errors are as DecodedOk says; strict mode collects no errors |
| Groups.DecodeChildren | xmlschema/validators/groups.py:640-782 | an empty choice with minOccurs > 0 gives exactly one error and no result; non-whitespace character data in a non-mixed group is an error unless the group is a single wildcard; the children's errors carry their positions (those at the end, position len(elem)), with leaves matched under the visitor's counter; strict mode raises instead of collecting; too deep data raises |
| Groups.ChildrenValidationError | xmlschema/validators/groups.py:223-242 | the children error carries the element and the child index; it is raised exactly in strict mode and otherwise returned |
| GroupEncoding.SelectContent | xmlschema/validators/groups.py:816-826 | None gives no content; a dict, or unordered content, is put in model order keeping every name's values and sorting character data; a lossless list is kept as it is; another list is collapsed as a permutation; anything else is the wrong content type |
| GroupEncoding.TailEnd | xmlschema/validators/groups.py:887-891 | the closing tail starts with a line break |
| GroupEncoding.TailEndDedents | xmlschema/validators/groups.py:887-891 | the closing tail is the padding of the level above, or a bare line break when the indent is not positive |
| GroupEncoding.Joined | xmlschema/validators/groups.py:829-836 | joining no character data leaves the text as it was; some character data always gives a text |
| GroupEncoding.JoinedExtends | xmlschema/validators/groups.py:829-836 | the joined text extends the initial one and contains every character data value |
| GroupEncoding.LayoutCDataText | xmlschema/validators/groups.py:829-831 | character data before the first child goes into the element's text |
| GroupEncoding.LayoutCDataTail | xmlschema/validators/groups.py:832-835 | character data after a child goes into that child's tail |
| GroupEncoding.LayoutKept | xmlschema/validators/groups.py:877-881 | an encoded name adds a child with no tail |
| GroupEncoding.LayoutFinish | xmlschema/validators/groups.py:887-891 | the last child's tail is stripped and closed by the padding of the level above |
| GroupEncoding.Finish | xmlschema/validators/groups.py:887-891 | only the last child's tail changes |
| GroupEncoding.MatchName | xmlschema/validators/groups.py:839-875 | a name matched by the open content's interleave wildcard is taken by it with no error; a leaf taken by the model matches the name under the occurrence counts of the model at that step; an unmatched name gives an error at its position among the names |
| GroupEncoding.ModelMatch | xmlschema/validators/groups.py:843-856 | the errors of the model loop carry the name's position; a leaf found matches the name under the model's occurrence counts |
| GroupEncoding.MatchingDropped | xmlschema/validators/groups.py:861-875 | a name nothing matches is dropped from the children |
| GroupEncoding.MatchingKept | xmlschema/validators/groups.py:877-881 | a matched name becomes the next child |
| GroupEncoding.ProgressDropped | xmlschema/validators/groups.py:861-875 | a name nothing matches adds its "does not match" error |
| GroupEncoding.ProgressKept | xmlschema/validators/groups.py:877-881 | a matched name adds its child and its indexed errors |
| GroupEncoding.ProgressCData | xmlschema/validators/groups.py:829-837 | a character data part goes into the text or the last tail and does not count as a name |
| GroupEncoding.EncodeItem | xmlschema/validators/groups.py:828-881 | one item keeps the layout and the error indexing; only strict mode raises, on a name that matches nothing |
| GroupEncoding.StopIndexEmptyContent | xmlschema/validators/groups.py:883-885 | with no content at all the end of the model is reported at index 1 |
| GroupEncoding.StopIndexAgrees | xmlschema/validators/groups.py:883-885 | with some content the index as written is the number of names |
| GroupEncoding.StopIndex | xmlschema/validators/groups.py:883-885 | the end of the model is reported at the number of names, never past the content |
| GroupEncoding.EncodeLoop | xmlschema/validators/groups.py:828-881 | the item loop ends with every item placed and every error indexed by name position |
| GroupEncoding.EncodeWith | xmlschema/validators/groups.py:830-881 | with a given visitor of the group, the item loop ends with every item placed and every error indexed by name position; the visitor stays valid |
| GroupEncoding.StopErrors | xmlschema/validators/groups.py:883-885 | the errors of model.stop() come after the others with the end index |
| GroupEncoding.EncodeItems | xmlschema/validators/groups.py:828-891 | text, children and errors are as ItemsDone says |
| GroupEncoding.AssembleInOrder | xmlschema/validators/groups.py:893-915 | the errors come out in order: unknown names, wrong content type, character data not allowed, then the children errors |
| GroupEncoding.EncodedFrom | xmlschema/validators/groups.py:887-917 | the final text, children and errors are as EncodedOk says |
| GroupEncoding.EncodeSelected | xmlschema/validators/groups.py:828-917 | strict mode yields no collected errors and only lax or skip never raise |
| GroupEncoding.EncodeChildren | xmlschema/validators/groups.py:784-917 | content selection as SelectContent, the layout and errors as EncodedOk, strict raises instead of collecting, and content that cannot be iterated is the wrong content type |
| Wildcards.KeepIn | xmlschema/validators/wildcards.py:243 | the kept names are exactly those in both lists |
| Wildcards.DropIn | xmlschema/validators/wildcards.py:252 | the kept names are exactly those of the first list missing from the second |
| Wildcards.ExtendNew | xmlschema/validators/wildcards.py:280 | the extended list starts with the old one and holds the names of either list |
| Wildcards.AppendMissing | xmlschema/validators/wildcards.py:313-316 | the list afterwards holds the old names and the appended one |
| Wildcards.RemoveFirst | xmlschema/validators/wildcards.py:345-348 | list.remove drops one entry; on a list without repeats it drops exactly that name |
| Wildcards.RemoveFirstNoDup | xmlschema/validators/wildcards.py:345-348 | removing from a list without repeats leaves a list without repeats |
| Wildcards.IsMatching | xmlschema/validators/wildcards.py:133-142 | no name never matches; a local name with no default namespace matches exactly when the absent namespace is allowed |
| Wildcards.CloseBraceAt | xmlschema/validators/wildcards.py:136-137 | scanning an expanded name for its closing brace gives back the namespace part |
| Wildcards.ExpandedNamespace | xmlschema/validators/wildcards.py:136-137 | the namespace of '{ns}local' is ns |
| Wildcards.MatchingExpandedName | xmlschema/validators/wildcards.py:133-152 | an expanded name matches exactly when its namespace is allowed, whatever the default namespace |
| Wildcards.DenyNamespacesMeaning | xmlschema/validators/wildcards.py:154-162 | deny_namespaces holds exactly when is_namespace_allowed rejects every one of the namespaces |
| Wildcards.QNamesOnly | xmlschema/validators/wildcards.py:195 | the notQName names without the ## keywords |
| Wildcards.ResolvedTokens | xmlschema/validators/wildcards.py:56-64 | a namespace list resolves to no more namespaces than it has tokens |
| Wildcards.ResolvedTokensMeaning | xmlschema/validators/wildcards.py:56-64 | every token is either resolved or reported as wrong, and the resolved namespaces are exactly the values of the good tokens |
| Wildcards.ParseNamespace | xmlschema/validators/wildcards.py:43-64 | an absent attribute means ##any; the empty value allows nothing; ##other, ##local and ##targetNamespace give their single entry; a list resolves every token and reports each wrong ## keyword |
| Wildcards.ResolveTokens | xmlschema/validators/wildcards.py:55-64 | the token loop computes ResolvedTokens and WrongTokens |
| Wildcards.ParseProcessContents | xmlschema/validators/wildcards.py:66-73 | only strict, lax or skip are accepted; a wrong value gives an error and keeps strict |
| Wildcards.IsRestriction | xmlschema/validators/wildcards.py:177-227 | a restriction never weakens processContents, is of the base's class, and for an element wildcard checked for occurrences has restricted occurrences |
| Wildcards.RestrictionReflexive | xmlschema/validators/wildcards.py:177-227 | every wildcard restricts itself |
| Wildcards.RestrictionAllowsLess | xmlschema/validators/wildcards.py:177-227 | a wildcard that restricts another allows no namespace the other rejects |
| Wildcards.MaxLen | xmlschema/validators/wildcards.py:497-525 | no name is longer than the maximum length |
| Wildcards.Repeat | xmlschema/validators/wildcards.py:497-525 | a string of n copies of a character |
| Wildcards.FreshNamespace | xmlschema/validators/wildcards.py:497-525 | a plain, non-absent namespace name that is none of the given ones |
| Wildcards.OverlapMeaning | xmlschema/validators/wildcards.py:497-525 | two element wildcards overlap exactly when some plain namespace is allowed by both |
| Wildcards.OverlapWitness | xmlschema/validators/wildcards.py:497-525 | when the wildcards overlap, a namespace both allow |
| Wildcards.UnionKeptQNames | xmlschema/validators/wildcards.py:236-239 | a notQName name stays excluded exactly when the other wildcard also excludes it, by name or by namespace |
| Wildcards.IntersectionNotQName | xmlschema/validators/wildcards.py:298-301 | the intersection excludes each name either wildcard excludes |
| Wildcards.UnionAllows | xmlschema/validators/wildcards.py:241-292 | outside the ##other/list cases that miss, the union allows exactly what one of the two wildcards allows |
| Wildcards.UnionDropsTargetNamespace | xmlschema/validators/wildcards.py:283-286 | ##other united with the list holding only its target namespace gives ##other, which rejects that target namespace |
| Wildcards.UnionFixedAllows | xmlschema/validators/wildcards.py:241-292 | the corrected union allows exactly what one of the two wildcards allows |
| Wildcards.UnionFixedFails | xmlschema/validators/wildcards.py:287-289 | the corrected union fails only in XSD 1.0, for ##other with a list holding the absent namespace but not the target one |
| Wildcards.IntersectionAllows | xmlschema/validators/wildcards.py:303-348 | the intersection allows exactly what both wildcards allow |
| Wildcards.XsdWildcard.constructor | xmlschema/validators/wildcards.py:22-73 | the new wildcard holds the given value |
| Wildcards.XsdWildcard.Union | xmlschema/validators/wildcards.py:229-292 | union updates notQName and the namespace lists as the union says, and raises instead, leaving the lists alone, where XSD 1.0 cannot express the union |
| Wildcards.XsdWildcard.Intersection | xmlschema/validators/wildcards.py:294-348 | intersection updates notQName and the namespace lists as the intersection says |
| Wildcards.OpenContentIsRestriction | xmlschema/validators/wildcards.py:793-799 | against no open content or mode 'none' only 'none' restricts; interleave never restricts suffix; accepted otherwise only when the wildcard restricts the base's wildcard |
| Wildcards.OpenContentReflexive | xmlschema/validators/wildcards.py:793-799 | open content restricts itself |
| Elements.IterSubstitutes | xmlschema/validators/elements.py:529-536 | the XSD 1.0 substitutes of a global element are never abstract |
| Elements.SubstitutesFrom | xmlschema/validators/elements.py:531-536 | the substitutes of the members from a position on are never abstract in XSD 1.0 |
| Elements.NonAbstract | xmlschema/validators/elements.py:532-536 | exactly the non-abstract members, each taken from the list |
| Elements.FirstNamed | xmlschema/validators/elements.py:1125-1127 | the first element of the list bearing the name, and none exactly when no element bears it |
| Elements.IsMatching | xmlschema/validators/elements.py:1101-1113 | no name and the empty name never match; outside the backward-compatibility rule a name matches exactly when, completed with the default namespace, it is the element's name or a substitute's |
| Elements.Match | xmlschema/validators/elements.py:1115-1128 | the element matched bears the completed name and is the element itself or one of its substitutes; the element's own name gives the element |
| Elements.MatchAgreesWithIsMatching | xmlschema/validators/elements.py:1101-1128 | match finds an element exactly when is_matching holds |
| Elements.IsSingle | xmlschema/validators/elements.py:1246-1254 | a global element is single; one that may repeat is not; one under a group that does not repeat is; under a repeating group only in a sequence or all with more than one particle |
| Elements.ElementsOverlap10Symmetric | xmlschema/validators/elements.py:1222-1227 | the XSD 1.0 overlap of two elements does not depend on their order |
| Elements.ElementsOverlap11Sound | xmlschema/validators/elements.py:1395-1405 | overlapping XSD 1.1 elements can stand for a common name |
| Elements.LeafOverlapMixedSymmetric | xmlschema/validators/elements.py:1228-1233 | the overlap of an element and a wildcard does not depend on their order |
| Elements.ConsistentPairLeak | xmlschema/validators/elements.py:1421-1433 | after the substitute loop finds no match, e1 stays bound to the last substitute, so two elements that agree are reported inconsistent |
| Elements.ConsistentPairFixed | xmlschema/validators/elements.py:1421-1433 | the pair compared shares a name and is taken from the two elements or their substitutes; no pair only when the names differ |
| Elements.ElementsConsistent11Fixed | xmlschema/validators/elements.py:1414-1443 | two elements are consistent exactly when the pair sharing a name, if any, has type tables of the same length and, in strict mode, the same type |
| Elements.Xsd11MatchingNarrows | xmlschema/validators/wildcards.py:650-691 | the XSD 1.1 matching of an element wildcard never matches more than its namespace test |
| Elements.Xsd11NotQNameExcludes | xmlschema/validators/wildcards.py:684-691 | a name listed in notQName is never matched |
| Elements.WildcardResolve | xmlschema/validators/wildcards.py:396-420 | a resolved element is only found when the wildcard matches, and is the global element of the completed name |
| Elements.ElementWildcardConsistent11 | xmlschema/validators/elements.py:1415-1419 | an element is always consistent with a skip wildcard, and with a wildcard that does not match it or resolves to no global element; otherwise it is consistent exactly when it is consistent with the global element the wildcard resolves its name to, with the default namespace of the schema's namespace map |
| Elements.XsiNil | xmlschema/validators/elements.py:707-725 | the element is nilled exactly for a true xsi:nil on a nillable element with no fixed value, no text and no children; xsi:nil on an element that is not nillable is that error; any other value but false is an error |
| Elements.AbstractCheck | xmlschema/validators/elements.py:597-612 | only an abstract element is checked; its own tag is an error; decoding is handed to a substitute only when one bears the tag |
| Elements.FixedOrDefault | xmlschema/validators/elements.py:758-770 | a fixed value is checked on the decoded values and fills an empty text; without one the default fills an empty text when defaults are used, and other text is kept |
| Facets.StrCmpFlip | xmlschema/validators/facets.py:279-285 | comparing two strings the other way round flips the outcome |
| Facets.StrCmpSame | xmlschema/validators/facets.py:279-285 | two strings compare the same exactly when they are equal |
| Facets.StrCmpTrans | xmlschema/validators/facets.py:279-285 | the string order is transitive, strictly so when one step is strict |
| Facets.CmpSameIsEq | xmlschema/validators/facets.py:279-285 | comparable values compare the same exactly when Python's == holds |
| Facets.CmpFlip | xmlschema/validators/facets.py:279-285 | comparing the other way round flips the outcome and fails exactly when the first comparison fails |
| Facets.CmpTrans | xmlschema/validators/facets.py:279-285 | the value order is transitive, strictly so when one step is strict |
| Facets.ParseInt | xmlschema/validators/facets.py:174 | int() of a text only succeeds on a text that is not blank |
| Facets.NatText | xmlschema/validators/facets.py:174 | str() of a natural number is a non-empty run of digits |
| Facets.NatTextValue | xmlschema/validators/facets.py:174 | the digits str() writes denote the number |
| Facets.StripDigits | xmlschema/validators/facets.py:174 | stripping a text with no white space at either end leaves it as it is |
| Facets.ParseIntText | xmlschema/validators/facets.py:174 | int(str(i)) == i for every integer |
| Facets.FirstFacet | xmlschema/validators/facets.py:97-112 | the facet of the nearest base type along the chain that has one, and none exactly when no base type has it |
| Facets.GetFacet | xmlschema/validators/simple_types.py:479-480 | a type's own facet is returned; any facet found comes from a type along the chain |
| Facets.AtomicChainAgrees | xmlschema/validators/simple_types.py:544-551 | along a chain of atomic types get_facet finds the same facet as base_facet |
| Facets.Len | xmlschema/validators/facets.py:184-187 | len() is defined exactly on strings and lists |
| Facets.ReplaceValidator | xmlschema/validators/facets.py:143-147 | a string or list passes exactly when it holds no tab and no newline; anything else is an invalid type |
| Facets.CollapseValidator | xmlschema/validators/facets.py:149-153 | a string or list passes exactly when it holds no tab, no newline and no double space |
| Facets.CollapseImpliesReplace | xmlschema/validators/facets.py:143-153 | a value that passes the collapse check passes the replace check |
| Facets.LengthValidator | xmlschema/validators/facets.py:184-187 | length, minLength and maxLength pass exactly when the length is equal, at least and at most the facet value; values without a length are an invalid type |
| Facets.LengthIsMinAndMax | xmlschema/validators/facets.py:184-255 | a length facet passes exactly when the minLength and maxLength facets of the same value both pass |
| Facets.TimezoneValidator | xmlschema/validators/facets.py:521-529 | a date or time passes exactly when it has a time zone as the facet requires; other values fail on the missing attribute |
| Facets.BoundValidator | xmlschema/validators/facets.py:279-387 | each bound passes exactly as its comparison says (not below, above, not above, below); incomparable values are an error |
| Facets.BoundDuality | xmlschema/validators/facets.py:279-387 | minExclusive passes exactly where maxInclusive of the same bound fails, and minInclusive exactly where maxExclusive fails |
| Facets.InclusiveBoundsSwap | xmlschema/validators/facets.py:279-351 | b is at least v exactly when v is at most b |
| Facets.DigitsValidator | xmlschema/validators/facets.py:422-488 | totalDigits passes when the digit count is at most the value, fractionDigits when the fraction digit count is; values without digits are an error |
| Facets.WhiteSpaceStep | xmlschema/validators/facets.py:130-141 | the whiteSpace value is kept; collapse and replace install their checks; one error exactly when the base facet is collapse and the value is not, or replace and the value is preserve |
| Facets.LengthErrors | xmlschema/validators/facets.py:173-245 | one error exactly when the base length differs, the base minLength is greater or the base maxLength is lower |
| Facets.RunLengthValidator | xmlschema/validators/facets.py:60-65 | calling the installed length validator is the length check |
| Facets.IssueErrors | xmlschema/validators/facets.py:276-308 | one invalid restriction error per decoding issue, except those an exclusive bound raises on its own value |
| Facets.BoundStep | xmlschema/validators/facets.py:273-379 | a bound keeps its decoded value and reports the decoding issues; an exclusive bound equal to the opposite inclusive bound adds one error |
| Facets.DigitsSetting | xmlschema/validators/facets.py:406-468 | an unreadable or too small value is replaced by 9999 |
| Facets.DigitsStep | xmlschema/validators/facets.py:406-477 | fractionDigits greater than zero on an integer type raises; otherwise the value is the setting, with an error exactly when the base facet's value is lower |
| Facets.TimezoneStep | xmlschema/validators/facets.py:507-519 | prohibited and required install their checks, anything else becomes optional; an error exactly when the base facet differs and is not optional |
| Facets.FinishErrors | xmlschema/validators/facets.py:77-86 | the errors added by _parse are those of the step followed by the fixed check |
| Facets.FixedErrors | xmlschema/validators/facets.py:83-86 | an error exactly when the base facet is fixed to a different value |
| Facets.LengthFacetParsed | xmlschema/validators/facets.py:71-187 | a length facet takes the integer value and the fixed flag, installs its check except on QName and NOTATION, and reports the base-length and fixed errors |
| Facets.DigitsDefault | xmlschema/validators/facets.py:406-415 | a missing or out-of-range digits value becomes 9999 |
| Facets.Facet.constructor | xmlschema/validators/facets.py:41-55 | a new facet is not fixed, has no value and installs no check |
| Facets.Facet.BaseFacet | xmlschema/validators/facets.py:97-112 | the loop over the base types finds FirstFacet |
| Facets.Facet.ReportIssues | xmlschema/validators/facets.py:276-277 | appends exactly the issue errors and changes nothing else |
| Facets.Facet.ParseDigits | xmlschema/validators/facets.py:406-477 | the fields change as DigitsStep says |
| Facets.Facet.ParseWhiteSpace | xmlschema/validators/facets.py:130-141 | the fields change as WhiteSpaceStep says |
| Facets.Facet.ParseLength | xmlschema/validators/facets.py:173-250 | the fields change as LengthStep says |
| Facets.Facet.ParseTimezone | xmlschema/validators/facets.py:507-519 | the fields change as TimezoneStep says |
| Facets.Facet.ParseBound | xmlschema/validators/facets.py:273-379 | the fields change as BoundStep says |
| Facets.Facet.ParseValueStep | xmlschema/validators/facets.py:88-90 | the fields change as _parse_value of the facet's kind says |
| Facets.Facet.Report | xmlschema/validators/facets.py:77-86 | a raised error is reported and clears the value; a parsed value is checked against a fixed base facet |
| Facets.Facet.Parse | xmlschema/validators/facets.py:71-86 | the facet's fields and errors become those of ParseFacet |
| SimpleTypes.Compare | xmlschema/validators/simple_types.py:221-238 | the comparison of two facet values: integers by value, atomic values as the operators order them, nothing when either is missing |
| SimpleTypes.Lt | xmlschema/validators/simple_types.py:246 | `<` between two integer facet values |
| SimpleTypes.Gt | xmlschema/validators/simple_types.py:225 | `>` between two integer facet values |
| SimpleTypes.Then | xmlschema/validators/simple_types.py:127-264 | running two groups of checks in turn keeps the first group's errors and, unless it raised, the second's |
| SimpleTypes.Advance | xmlschema/validators/simple_types.py:127-264 | appending two groups of checks in turn appends the first group's errors and then, unless it raised, the second's |
| SimpleTypes.DerivationChecks | xmlschema/validators/simple_types.py:130-139 | facets on a direct derivation of xs:anySimpleType, or of simple content of it, are each one error |
| SimpleTypes.MembershipChecks | xmlschema/validators/simple_types.py:141-151 | an error when a facet is not admitted and one when the facets have more than one base type |
| SimpleTypes.SeqAssoc3 | xmlschema/validators/simple_types.py:127-264 | error lists concatenate associatively |
| SimpleTypes.Pair | xmlschema/validators/simple_types.py:161-184 | the list holds exactly the errors whose condition holds |
| SimpleTypes.LengthSetErrors | xmlschema/validators/simple_types.py:157-186 | with a length facet: an error for a negative length, for minLength above it, for maxLength below it, and for minLength or maxLength declared beside length in the same derivation |
| SimpleTypes.ParentLengthChecks | xmlschema/validators/simple_types.py:188-213 | comparisons with the parent's minLength and maxLength raise when a parent value is not an integer, and otherwise give an error for each bound crossed |
| SimpleTypes.MinLengthChecks | xmlschema/validators/simple_types.py:190-202 | the four minLength errors: negative, above maxLength, below the parent's minLength, above the parent's maxLength |
| SimpleTypes.MaxLengthChecks | xmlschema/validators/simple_types.py:204-213 | the three maxLength errors: negative, below the parent's minLength, above the parent's maxLength |
| SimpleTypes.RangeChecks | xmlschema/validators/simple_types.py:215-241 | the bound checks in the source's order, only one of each elif chain firing; raising only on incomparable bounds |
| SimpleTypes.DigitsChecks | xmlschema/validators/simple_types.py:243-255 | without totalDigits nothing; otherwise an error for totalDigits below fractionDigits and one for totalDigits above the base facet |
| SimpleTypes.TimezoneChecks | xmlschema/validators/simple_types.py:257-264 | an error exactly when the base facet is prohibited or required and the new value differs |
| SimpleTypes.FacetSetErrors | xmlschema/validators/simple_types.py:127-264 | on well-typed facets _parse_facets raises nothing, and its errors are those of the six groups of checks in order |
| SimpleTypes.MinMaxLengthConsistency | xmlschema/validators/simple_types.py:187-213 | without length the errors are exactly the seven minLength and maxLength conditions that hold, in order |
| SimpleTypes.BoundsConsistency | xmlschema/validators/simple_types.py:215-241 | each bound error is reported exactly when its condition and the chain before it say so |
| SimpleTypes.DigitsConsistency | xmlschema/validators/simple_types.py:243-255 | each digits error is reported exactly when its comparison holds |
| SimpleTypes.MinOf | xmlschema/validators/simple_types.py:278-297 | min_value is the bound present, the exclusive one when it is at least the inclusive one, and fails on incomparable bounds |
| SimpleTypes.MaxOf | xmlschema/validators/simple_types.py:299-319 | max_value is the bound present, the exclusive one when it is at most the inclusive one, and fails on incomparable bounds |
| SimpleTypes.MinOfTightest | xmlschema/validators/simple_types.py:278-297 | the bound min_value picks is the tighter: a value it admits is admitted by the other bound |
| SimpleTypes.MaxOfTightest | xmlschema/validators/simple_types.py:299-319 | the bound max_value picks is the tighter: a value it admits is admitted by the other bound |
| SimpleTypes.ReplaceSpaces | xmlschema/validators/simple_types.py:427-428 | every white space character becomes a space and every other character is kept |
| SimpleTypes.SqueezeSpaces | xmlschema/validators/simple_types.py:429-430 | runs of white space become single spaces, and the result starts with a space exactly when the text does |
| SimpleTypes.SqueezedSlice | xmlschema/validators/simple_types.py:429-430 | a slice of a squeezed text is squeezed |
| SimpleTypes.StripSqueezed | xmlschema/validators/simple_types.py:429-430 | stripping a squeezed text gives a collapsed one |
| SimpleTypes.Collapse | xmlschema/validators/simple_types.py:429-430 | the collapsed text has no white space but single inner spaces |
| SimpleTypes.SqueezeSqueezed | xmlschema/validators/simple_types.py:429-430 | squeezing a squeezed text changes nothing |
| SimpleTypes.CollapseIdempotent | xmlschema/validators/simple_types.py:429-430 | collapsing twice is collapsing once |
| SimpleTypes.Normalize | xmlschema/validators/simple_types.py:415-432 | a value that is not text is an error; replace keeps the length and passes the replace facet; collapse passes the collapse facet; preserve keeps the text |
| SimpleTypes.NormalizeIdempotent | xmlschema/validators/simple_types.py:415-432 | normalizing a normalized text changes nothing |
| SimpleTypes.SplitReplaced | xmlschema/validators/simple_types.py:427-428 | replacing white space does not change how the text splits into words |
| SimpleTypes.SplitLStripped | xmlschema/validators/simple_types.py:430 | leading white space does not change the words |
| SimpleTypes.SplitSqueezed | xmlschema/validators/simple_types.py:429-430 | squeezing white space does not change the words |
| SimpleTypes.SplitTrailing | xmlschema/validators/simple_types.py:430 | trailing white space does not change the words |
| SimpleTypes.SplitRStripped | xmlschema/validators/simple_types.py:430 | stripping at the right does not change the words |
| SimpleTypes.NormalizeKeepsWords | xmlschema/validators/simple_types.py:415-432 | whatever the whiteSpace facet, normalizing keeps the words of the text |
| SimpleTypes.EmptyTypeAdmitsOnlyEmpty | xmlschema/validators/simple_types.py:366-368 | a value valid for an empty type has length zero |
| SimpleTypes.ValidatorsOf | xmlschema/validators/simple_types.py:110-125 | a callback validator is used alone; otherwise every facet but whiteSpace, pattern and assertion, plus the enumeration and each assertion |
| SimpleTypes.SimpleType.constructor | xmlschema/validators/simple_types.py:76-84 | a new simple type has no facets, no length bounds, no patterns, no validators and admits the empty text |
| SimpleTypes.SimpleType.ParseFacets | xmlschema/validators/simple_types.py:127-267 | appends the errors of the checks and, unless one raised, sets min_length and max_length from the facets; nothing else changes |
| SimpleTypes.SimpleType.ApplyFacets | xmlschema/validators/simple_types.py:92-125 | allow_empty is cleared by a non-zero minLength, by patterns none of which matches the empty text and by an enumeration without it; whiteSpace, patterns and validators are set as the facets say |
| SimpleTypes.SimpleType.SetFacets | xmlschema/validators/simple_types.py:86-125 | assigning facets parses them unless the type is built-in, and then applies them unless parsing raised |
| SimpleDecoding.ErrorsOf | xmlschema/validators/simple_types.py:933-934 | the errors among the results, no more of them than results |
| SimpleDecoding.ValuesOf | xmlschema/validators/simple_types.py:935-937 | the decoded values among the results, no more of them than results |
| SimpleDecoding.ListDecode | xmlschema/validators/simple_types.py:926-939 | a value that is not text is an error; otherwise every word of the normalized text is decoded by the item type, its errors and values collected in order |
| SimpleDecoding.ListOfAppend | xmlschema/validators/simple_types.py:931-937 | decoding two runs of words one after the other joins their errors and their items |
| SimpleDecoding.ListItemsInOrder | xmlschema/validators/simple_types.py:931-937 | when the item type decodes every word to one value, the list holds those values word by word and no error |
| SimpleDecoding.FirstMatch | xmlschema/validators/simple_types.py:1094-1105 | the first member type whose first result is a value; none exactly when no member decodes the whole text |
| SimpleDecoding.FirstError | xmlschema/validators/simple_types.py:1119-1125 | the position of the first error among a member's results, all results before it being values |
| SimpleDecoding.ChunkFrom | xmlschema/validators/simple_types.py:1118-1130 | a word is decoded exactly when some member type from the position on accepts it |
| SimpleDecoding.DecodeChunk | xmlschema/validators/simple_types.py:1118-1130 | the loop over the member types computes ChunkFrom |
| SimpleDecoding.UnionDecode | xmlschema/validators/simple_types.py:1089-1136 | the union decoder computes UnionOf |
| SimpleDecoding.DecodeChunks | xmlschema/validators/simple_types.py:1115-1131 | the loop over the words computes ChunksOf |
| SimpleDecoding.FirstMemberDecides | xmlschema/validators/simple_types.py:1094-1105 | the first member type that decodes the whole text gives the value, with at most a pattern error |
| SimpleDecoding.InvalidValueCase | xmlschema/validators/simple_types.py:1107-1113 | "invalid value" is the single outcome exactly when no member decodes the whole value and it is not text with an inner space |
| SimpleDecoding.NotDecodableExact | xmlschema/validators/simple_types.py:1126-1130 | in skip mode nothing is reported; otherwise the words reported are exactly those no member type accepts |
| SimpleDecoding.ChunkOneValue | xmlschema/validators/simple_types.py:1118-1125 | when every member yields one result, a decoded word adds exactly one value |
| SimpleDecoding.OneItemPerChunk | xmlschema/validators/simple_types.py:1115-1131 | each word is either an item or reported, and in skip mode every word is an item |
| Attributes.Tagged | xmlschema/validators/attributes.py:254 | every reason of the type's decoder becomes one invalid-value error of the attribute, in order |
| Attributes.AttributeDecodeMeaning | xmlschema/validators/attributes.py:231-254 | the value decoded is the given text, else the default, else the fixed value; the fixed-value error is reported exactly when the decoded values differ; the other errors are the type's and the xs:NOTATION ones |
| Attributes.NotationReported | xmlschema/validators/attributes.py:236-243 | whatever the value, a type that is xs:NOTATION itself is an error, and so is a subtype of it without an enumeration facet; these errors name the attribute |
| Attributes.FixedValueAccepted | xmlschema/validators/attributes.py:245-254 | the fixed value itself, or a missing value without a default, never gives the fixed-value error and decodes the fixed value |
| Attributes.LessIrreflexive | xmlschema/validators/attributes.py:369 | no name sorts before itself |
| Attributes.LessTotal | xmlschema/validators/attributes.py:369 | of two different names one sorts before the other |
| Attributes.LessTransitive | xmlschema/validators/attributes.py:369 | the order of names is transitive |
| Attributes.Insert | xmlschema/validators/attributes.py:369 | inserting into a sorted list keeps it sorted and adds the name |
| Attributes.Sort | xmlschema/validators/attributes.py:369 | sorted() gives a sorted permutation of the names |
| Attributes.RequiredOf | xmlschema/validators/attributes.py:612-616 | exactly the names whose attribute has use="required" |
| Attributes.ConstraintsMeaning | xmlschema/validators/attributes.py:618-628 | every constraint pair is a named attribute with its fixed value, or its default when defaults are used; every such value is listed |
| Attributes.Additional | xmlschema/validators/attributes.py:649-652 | exactly the constraint pairs whose name is missing from the element |
| Attributes.MissingOf | xmlschema/validators/attributes.py:645-647 | exactly one error per required name missing from the element |
| Attributes.MissingErrors | xmlschema/validators/attributes.py:645-647 | the loop over the required names computes MissingOf |
| Attributes.FillOf | xmlschema/validators/attributes.py:702-707 | exactly the names missing from the filled attributes, each paired with None |
| Attributes.AttributeGroup.constructor | xmlschema/validators/attributes.py:332-341 | a new group has no attributes and no wildcard |
| Attributes.AttributeGroup.Len | xmlschema/validators/attributes.py:373-374 | the length is zero exactly when there are no attributes and no wildcard |
| Attributes.AttributeGroup.SetItem | xmlschema/validators/attributes.py:356-361 | a key that is not the declaration's name is refused and nothing changes; otherwise the wildcard or the attribute is set, a new name joining the end of the order |
| Attributes.AttributeGroup.DelItem | xmlschema/validators/attributes.py:363-364 | a missing key is refused and nothing changes; otherwise the wildcard or the attribute and its name are removed |
| Attributes.AttributeGroup.Iter | xmlschema/validators/attributes.py:366-371 | every key once; with a wildcard the names come sorted and the wildcard's None last, otherwise in insertion order |
| Attributes.AttributeGroup.RequiredNames | xmlschema/validators/attributes.py:612-616 | exactly the group's names with use="required" |
| Attributes.AttributeGroup.Full | xmlschema/validators/attributes.py:649-655 | the element's attributes come first, unchanged |
| Attributes.AttributeGroup.DecodeItem | xmlschema/validators/attributes.py:665-698 | one attribute gives at most one entry, under its own name |
| Attributes.AttributeGroup.RawDecode | xmlschema/validators/attributes.py:639-713 | the method computes GroupDecode |
| Attributes.AttributeGroup.DecodeItemErrors | xmlschema/validators/attributes.py:665-698 | an attribute's errors are a prohibited use not rescued by the wildcard, an unknown XSI attribute, an attribute not allowed, or its value's errors |
| Attributes.AttributeGroup.ItemInLoop | xmlschema/validators/attributes.py:665-698 | the loop keeps every error and entry of every attribute |
| Attributes.AttributeGroup.ErrorSource | xmlschema/validators/attributes.py:665-698 | every error of the loop comes from one attribute |
| Attributes.AttributeGroup.EntrySource | xmlschema/validators/attributes.py:665-698 | every entry of the loop comes from one attribute |
| Attributes.AttributeGroup.MissingRequiredReported | xmlschema/validators/attributes.py:645-647 | a missing-required error is reported exactly for each required name the element lacks, and these errors come first |
| Attributes.AttributeGroup.UnknownAttributeRejected | xmlschema/validators/attributes.py:681-687 | without a wildcard an undeclared attribute outside the XSI namespace is not allowed and is left out of the result |
| Attributes.AttributeGroup.ProhibitedReported | xmlschema/validators/attributes.py:689-692 | a prohibited attribute is reported exactly when no wildcard matches its name |
| Attributes.AttributeGroup.ConstraintValueAdded | xmlschema/validators/attributes.py:649-655 | a missing attribute with a fixed value, or a default when defaults are used, is added with that value; without defaults only fixed values are added |
| Attributes.AttributeGroup.ConstraintValueDecoded | xmlschema/validators/attributes.py:649-698 | an added constraint value is decoded into the result unless it decodes to nothing |
| Attributes.AttributeGroup.FillMissingMeaning | xmlschema/validators/attributes.py:700-713 | with fill_missing every declared name still missing is paired with None; without it the result is the loop's entries |
| Attributes.AttributeGroup.DecodeItems | xmlschema/validators/attributes.py:665-698 | the loop over the attributes computes ItemsOf |
| Attributes.Somes | xmlschema/validators/attributes.py:371 | every name wrapped as a key, in order |
| Attributes.DropKeepsDistinct | xmlschema/validators/attributes.py:363-364 | removing a name from a list without repeats keeps it without repeats and drops only that name |
| XsdBase.ValidityOf | xmlschema/validators/xsdbase.py:96-111 | skip is notKnown; otherwise invalid exactly when the validator or a component has errors, and valid exactly when it is built with no errors anywhere |
| XsdBase.CheckValidator | xmlschema/validators/xsdbase.py:113-134 | a wrong mode argument is that error; the self-check of an unattempted, notKnown validator passes; not built is raised only for an unattempted validator outside skip, or in strict mode without full and valid |
| XsdBase.StrictCheckNeedsFullAndValid | xmlschema/validators/xsdbase.py:128-134 | the strict check passes exactly on a fully attempted, valid validator |
| XsdBase.SkipAndLaxChecks | xmlschema/validators/xsdbase.py:124-127 | skip always passes; lax fails exactly when validation was not attempted |
| XsdBase.LStripQuotes | xmlschema/validators/xsdbase.py:207-208 | the leading quotes are removed and only they |
| XsdBase.RStripQuotes | xmlschema/validators/xsdbase.py:207-208 | the trailing quotes are removed and only they |
| XsdBase.StripQuotes | xmlschema/validators/xsdbase.py:207-208 | the result neither starts nor ends with a quote |
| XsdBase.UnquoteAsWritten | xmlschema/validators/xsdbase.py:205-209 | the message of an exception fails exactly when it is blank, since message[0] indexes past its end |
| XsdBase.UnquoteEmptyFails | xmlschema/validators/xsdbase.py:206-207 | an exception with an empty or blank message makes parse_error fail |
| XsdBase.Unquote | xmlschema/validators/xsdbase.py:205-209 | the corrected message agrees with the source wherever it succeeds, and a blank one stays empty |
| XsdBase.UnquoteWrapped | xmlschema/validators/xsdbase.py:207-208 | a message inside one pair of quotes loses the quotes |
| XsdBase.ParseOutcomeOf | xmlschema/validators/xsdbase.py:167-223 | a wrong mode argument is that error; skip drops the error; lax collects and strict raises, with the error's element, else the given element, else the validator's own |
| XsdBase.XsdValidator.constructor | xmlschema/validators/xsdbase.py:65-67 | a new validator has its mode and no errors |
| XsdBase.XsdValidator.ParseError | xmlschema/validators/xsdbase.py:167-223 | the outcome is ParseOutcomeOf, and only a collected error is appended |
| XsdBase.XsdValidator.ParseXPathDefaultNamespace | xmlschema/validators/xsdbase.py:225-252 | the namespace XPathDefaultNamespace gives, or '' after a parse error |
| XsdBase.XsdValidator.ParseChildComponent | xmlschema/validators/xsdbase.py:460-474 | the first child that is not an annotation; in strict mode a second one is a parse error |
| XsdBase.XPathDefaultNamespace | xmlschema/validators/xsdbase.py:225-252 | absent and ##local give ''; ##defaultNamespace and ##targetNamespace give those namespaces or ''; any other value must be a single token |
| XsdBase.XPathDefaultNamespaceOfUri | xmlschema/validators/xsdbase.py:245-246 | a URI without spaces is its own default namespace |
| XsdBase.XPathDefaultNamespaceOfBlank | xmlschema/validators/xsdbase.py:247-252 | a blank value is an error |
| XsdBase.FirstComponent | xmlschema/validators/xsdbase.py:463-467 | the first child from the position on that is not an annotation, or none |
| XsdBase.NatStr | xmlschema/validators/xsdbase.py:469-470 | the position in the message is written in decimal digits |
| XsdBase.ComponentIsMatchingCases | xmlschema/validators/xsdbase.py:564-576 | an expanded name matches only itself; a local name matches itself or its expansion in a non-empty default namespace |
| XsdBase.ComponentMatch | xmlschema/validators/xsdbase.py:578-584 | match gives the component exactly when is_matching holds |
| XsdBase.AncestorStep | xmlschema/validators/xsdbase.py:626-630 | one more step up the parent chain reaches the parent |
| XsdBase.AncestorPastRoot | xmlschema/validators/xsdbase.py:628-629 | nothing lies above a global component |
| XsdBase.TopIsUnique | xmlschema/validators/xsdbase.py:622-630 | the parent chain reaches at most one global component, at one depth |
| XsdBase.AncestorAdd | xmlschema/validators/xsdbase.py:626-630 | climbing a then b steps is climbing a + b steps |
| XsdBase.CycleHasNoTop | xmlschema/validators/xsdbase.py:631-633 | a parent chain that returns to the component never reaches a global one |
| XsdBase.GetGlobal | xmlschema/validators/xsdbase.py:622-633 | a global component is itself; otherwise the loop reaches the global ancestor, or reports the circularity the chain holds |
| Validation.CheckValidationMode | xmlschema/validators/validation.py:45-58 | a non-string is a type error; a string is accepted exactly when it is strict, lax or skip, and otherwise is a value error; an accepted mode names its argument |
| Validation.ModeNameAccepted | xmlschema/validators/validation.py:53-58 | the name of every mode passes the check and gives back that mode |
| Validation.AttributeReason | xmlschema/validators/validation.py:172-176 | a missing reason stays missing; with no current attribute or a reason already starting with "attribute " the reason is unchanged; any rewritten reason starts with "attribute " |
| Validation.AttributeReasonOnce | xmlschema/validators/validation.py:172-176 | decorating a reason with the attribute is idempotent |
| Validation.ValidationContext.constructor | xmlschema/validators/validation.py:89-117 | a new context holds the given mode, level, element and errors, with empty id map, identities and inherited maps and no attribute, id list or patterns |
| Validation.ValidationContext.Prepared | xmlschema/validators/validation.py:167-176 | the error gets the context element when it has none and its reason decorated with the current attribute; object and index are kept |
| Validation.ValidationContext.RaiseOrCollect | xmlschema/validators/validation.py:167-187 | strict raises the prepared error, other modes return it; only lax appends it to the errors; nothing else in the context changes |
| Validation.ValidationContext.ValidationError | xmlschema/validators/validation.py:189-213 | the error built from the reason or the given error with the object filled in is prepared, raised exactly in strict mode and collected exactly in lax mode; nothing else changes |
| Validation.ValidationContext.Clear | xmlschema/validators/validation.py:149-158 | errors, id map, identities and inherited become empty, level 0, and element, attribute, id list and patterns unset; the mode is kept |
| Validation.ValidationContext.Copy | xmlschema/validators/validation.py:127-147 | the copy is a new object holding the same mode, errors, maps, level, element, attribute, id list and patterns |
| Validation.WithObj | xmlschema/validators/validation.py:202-211 | a reason becomes a new error on the given object; an existing error gets the object only when it has none |
| Validation.ChildrenValidationError | xmlschema/validators/validation.py:215-231 | the children error carries the element and the child index, is raised exactly in strict mode and is collected exactly in lax mode |
| Validation.CopyIsIndependent | xmlschema/validators/validation.py:127-131 | an error collected by a copy is appended to the copy's errors and leaves the original's errors unchanged |
| Validation.Spaces | xmlschema/validators/validation.py:375 | a string of exactly max(n, 0) spaces, as Python's repetition of ' ' gives |
| Validation.Padding | xmlschema/validators/validation.py:373-375 | a newline followed by indent times level spaces (none when that product is not positive) |
| Validation.XElement.constructor | xmlschema/validators/validation.py:377-379 | a new element has the tag, no text, no tail and no children |
| Validation.SetElementContent | xmlschema/validators/validation.py:381-392 | without children only the text is set; with children the last child's tail becomes the padding or its stripped tail plus the padding, an empty text becomes the padding, and the children are appended; nothing else changes |
| Validation.LastTailEndsInPadding | xmlschema/validators/validation.py:383-387 | the last child's new tail always ends with the padding |
| Schemas.SplitChar | xmlschema/validators/schemas.py:1226 | Python's split on one separator gives at least one piece and no piece holds the separator |
| Schemas.SplitCharJoin | xmlschema/validators/schemas.py:1226 | joining the pieces with the separator gives back the string |
| Schemas.SplitCharNone | xmlschema/validators/schemas.py:1233 | a string without the separator splits into itself alone |
| Schemas.SplitCharPair | xmlschema/validators/schemas.py:1226-1233 | two separator-free parts joined by the separator split into exactly those two parts |
| Schemas.ResolveQName | xmlschema/validators/schemas.py:1206-1258 | a resolved name comes from a stripped, non-empty name with no blank, tab or newline; a blank name is a value error; the result is the local name when the namespace is empty and the expanded "{ns}local" otherwise; a name that does not split is an error; the namespace error is returned exactly when imports are checked and the namespace is neither the target, XSD, XSI nor imported |
| Schemas.NoSpaceConcat | xmlschema/validators/schemas.py:1220 | concatenating two names without white space gives a name without white space |
| Schemas.StripOfNoSpace | xmlschema/validators/schemas.py:1219-1220 | a name without white space is its own strip and passes the blank test |
| Schemas.SplitExpanded | xmlschema/validators/schemas.py:1224-1229 | an expanded name "{ns}local" splits into that namespace and local name |
| Schemas.ResolveExpanded | xmlschema/validators/schemas.py:1224-1258 | an expanded name with an admitted non-empty namespace resolves to itself |
| Schemas.ResolveClean | xmlschema/validators/schemas.py:1219-1258 | a clean name that splits into an admitted non-empty namespace resolves to "{ns}local" |
| Schemas.ResolvePrefixed | xmlschema/validators/schemas.py:1231-1258 | a prefixed name with an undeclared prefix is a key error naming the prefix; with a declared, admitted namespace it resolves to "{ns}local" |
| Schemas.StrLessAsymmetric | xmlschema/validators/schemas.py:1138 | Python's string order is asymmetric and irreflexive |
| Schemas.VcCompatibleAsWritten | xmlschema/validators/schemas.py:1132-1148 | as written: the element is compatible exactly when a well-formed minVersion is not above the version and a well-formed maxVersion is above it, both compared as strings |
| Schemas.TrailingZeroExcludes | xmlschema/validators/schemas.py:1138 | as written, vc:minVersion="1.10" excludes an XSD 1.1 schema while "1.1" admits it, and maxVersion "1.10" and "1.1" disagree too |
| Schemas.Pow10 | xmlschema/validators/schemas.py:1138 | a power of ten is at least one |
| Schemas.VcCompatible | xmlschema/validators/schemas.py:1132-1148 | corrected: the same bounds with the versions compared as decimals |
| Schemas.VersionDecimal | xmlschema/validators/schemas.py:1135 | the schema versions 1.0 and 1.1 as decimals 10 and 11 tenths |
| Schemas.TrailingZeroValue | xmlschema/validators/schemas.py:1138 | appending a trailing zero to a version number scales it and keeps it in the version form |
| Schemas.ScaledLess | xmlschema/validators/schemas.py:1138 | decimal order is unchanged by scaling one side by ten |
| Schemas.VcTrailingZero | xmlschema/validators/schemas.py:1132-1148 | with the decimal comparison a trailing zero never changes compatibility, for either bound |
| Schemas.VcAgreesOnOneDigitVersions | xmlschema/validators/schemas.py:1132-1139 | on versions of one digit on each side of the point the corrected check agrees with the source's string comparison |
| Schemas.VersionCheck | xmlschema/validators/schemas.py:1123-1148 | without a raised parse error the answer is the decimal compatibility; a malformed bound raises only for an XSD 1.1 schema in strict mode and is never reported by an XSD 1.0 schema; only lax collects errors |
| Schemas.Validate | xmlschema/validators/schemas.py:1260-1310 | validation raises exactly when some error is yielded, and raises the first one |
| Schemas.IsValid | xmlschema/validators/schemas.py:1312-1329 | the data are valid exactly when validating them raises nothing |
| Schemas.ErrorsOf | xmlschema/validators/schemas.py:1695-1701 | every yielded item is either a datum or an error |
| Schemas.Shape | xmlschema/validators/schemas.py:1703-1708 | no data gives None, one datum gives itself, two or more give the list |
| Schemas.ShapeRoundTrip | xmlschema/validators/schemas.py:1703-1708 | the shaped result determines the decoded data |
| Schemas.ShapeResults | xmlschema/validators/schemas.py:1686-1708 | strict raises the first error if any and otherwise returns the shaped data; lax returns the shaped data with all the errors; skip returns the shaped data (encode, at schemas.py lines 1833-1854, shapes its results the same way) |
| Schemas.FirstErrorAt | xmlschema/validators/schemas.py:1695-1701 | the error strict decoding raises is the first error item in the stream |
| Converters.Put | xmlschema/converters/default.py:423-425 | after assigning a key it holds the value, every other key keeps its value, and the dictionary grows only for a new key |
| Converters.UpdateKeeps | xmlschema/converters/default.py:396-401 | a key that none of the update items has keeps its value |
| Converters.UpdateLast | xmlschema/converters/default.py:396-401 | after an update a key holds the value of its last item |
| Converters.DecimalRoundTrip | xmlschema/converters/default.py:482-485 | the index written after the character-data prefix reads back as the same integer |
| Converters.BeforeColon | xmlschema/converters/default.py:386 | the part before the first colon is a colon-free prefix of the text, followed by a colon when it is not the whole text |
| Converters.Converter.constructor | xmlschema/converters/default.py:113-157 | the keys, prefixes, indent and flags are stored as given, and the namespace-declaration prefix is "xmlns" after the attribute prefix when there is one |
| Converters.Converter.SetAttr | xmlschema/converters/default.py:159-185 | assigning a prefix or the text key something other than a string or None, a flag a non-bool, or indent a non-int or a bool, is a type error; otherwise exactly the named setting changes |
| Converters.Converter.MapAttributes | xmlschema/converters/default.py:250-262 | without an attribute prefix no attribute is kept; with one every attribute is kept in order under the prefix followed by its mapped name |
| Converters.Converter.MapContent | xmlschema/converters/default.py:264-280 | exactly the character-data parts are dropped when there is no cdata prefix, and no other part |
| Converters.Converter.MapContentInPlace | xmlschema/converters/default.py:272-280 | with a cdata prefix each part stays in place under its key: an index becomes the prefix and the index, an expanded tag its mapped QName, another name itself |
| Converters.Converter.MapContentFrom | xmlschema/converters/default.py:272-280 | every part of the result is a part of the content under its key |
| Converters.Converter.XmlnsItems | xmlschema/converters/default.py:395-398 | each namespace declaration becomes the key "xmlns:prefix", or "xmlns" for the default namespace, with its URI |
| Converters.Converter.DecodeElement | xmlschema/converters/default.py:355-437 | element_decode computes the result the lemmas on ElementDecode describe |
| Converters.Converter.AddChildren | xmlschema/converters/default.py:418-433 | the loop over the mapped content leaves in the dictionary exactly what adding each child in turn gives (ChildrenOf) |
| Converters.Converter.EncodeElement | xmlschema/converters/default.py:440-512 | element_encode computes the result the lemmas on ElementEncode describe |
| Converters.Converter.LossyMeaning | xmlschema/converters/default.py:202-205 | the converter is lossy exactly when attributes are dropped, character-data parts are dropped, or no key is read as text |
| Converters.Converter.IsXmlnsMeaning | xmlschema/converters/default.py:320-323 | a key is a namespace declaration exactly when it is the namespace prefix or starts with it and a colon |
| Converters.Converter.XmlnsKeysSkipped | xmlschema/converters/default.py:486-487 | the keys decoding writes for namespace declarations are read back and skipped by encoding |
| Converters.Converter.AttributeKeysRead | xmlschema/converters/default.py:488-492 | the key decoding gives an attribute is read back by encoding as that attribute, under its original name |
| Converters.Converter.CdataKeysRead | xmlschema/converters/default.py:482-485 | the key decoding gives a character-data part is read back by encoding as its index |
| Converters.Converter.RepeatedNameCollects | xmlschema/converters/default.py:418-433 | a name repeated among the children collects all its values in a list in order; a name met once keeps its value, as is or in a list of one |
| Converters.Converter.AddChildOther | xmlschema/converters/default.py:418-433 | a child under another name leaves a key alone |
| Converters.Converter.AddChildSame | xmlschema/converters/default.py:419-433 | the first value under a name is kept as is or in a list; later ones are appended to the list |
| Converters.Converter.ValuesNamedFrom | xmlschema/converters/default.py:418 | every value collected under a name is the value of a child with that name |
| Converters.Converter.SingleChildrenKept | xmlschema/converters/default.py:421-423 | children met once each, single in a single group, keep their values, or get a list of one with force_list |
| Converters.Converter.ChildrenOfKeeps | xmlschema/converters/default.py:418-433 | children under other names leave a key alone |
| Converters.Converter.DecodeShape | xmlschema/converters/default.py:409-437 | at the root with preserve_root the result is one item under the mapped root tag; an element whose dictionary stays empty decodes to None |
| Converters.Converter.EncodeItemText | xmlschema/converters/default.py:479-481 | only the text key changes the encoded text |
| Converters.Converter.NoTextKey | xmlschema/converters/default.py:466-481 | without the text key among the keys the encoded text stays None |
| Converters.Converter.TextKeyEncoded | xmlschema/converters/default.py:479-481 | the text key sets the encoded text to its last value |
| Converters.Converter.PreserveRootErrors | xmlschema/converters/default.py:449-477 | with preserve_root at the root, encoding fails exactly for data that is not a one-item dictionary, or whose tag does not match the element |
| Converters.Spread | xmlschema/converters/default.py:498-510 | each item of a list becomes a content part under the same name, in order |
| Regex.CodeSpan | xmlschema/regex.py:167-168 | the code points a range yields after its first character, in ascending order, one each |
| Regex.TurnAt | xmlschema/regex.py:143-192 | every turn of the group loop consumes at least one character and stays within the group |
| Regex.RangeFrom | xmlschema/regex.py:167-168 | the range loop yields exactly the code points from lo up to hi |
| Regex.TurnStep | xmlschema/regex.py:143-192 | one turn of the loop, with the escaped flag and the last character, as the functional turn describes it |
| Regex.ParseCharacterGroup | xmlschema/regex.py:133-194 | the code points the generator yields before the error, if any, that ends the group |
| Regex.RangeGroup | xmlschema/regex.py:157-168 | "x-y" yields every code point from x to y; a descending range yields x and then is a bad-range error |
| Regex.LiteralHyphen | xmlschema/regex.py:152-156 | a hyphen at the end of a group or after an escape stands for itself |
| Regex.BracketRejected | xmlschema/regex.py:146-176 | an unescaped bracket in a group of more than one character is a bad-character error at its position |
| Regex.SingleGroup | xmlschema/regex.py:144-151 | a group of one character other than the backslash, brackets included, yields that character |
| Regex.CharRepr | xmlschema/regex.py:205-211 | every code point is written as a non-empty text |
| Regex.SortNats | xmlschema/regex.py:215 | sorted() gives the code points in ascending order, as a permutation of its input |
| Regex.InsertNatSorted | xmlschema/regex.py:215 | inserting into sorted code points keeps them sorted and adds the one code point |
| Regex.EmitRun | xmlschema/regex.py:243-249 | the open run is written at the end of the loop: a short run point by point, a longer one as first-last |
| Regex.GenerateCharacterGroup | xmlschema/regex.py:197-249 | the items generated are those of the run compression over the sorted code points |
| Regex.RunStep | xmlschema/regex.py:216-239 | one turn of the loop keeps the invariant linking the open run, the items written and the whole output |
| Regex.CompressRuns | xmlschema/regex.py:213-249 | the loop over the sorted code points writes exactly the run compression of them |
| Regex.ExpandRun | xmlschema/regex.py:227-249 | the items of a run denote the code points of that run |
| Regex.RunsExpand | xmlschema/regex.py:215-249 | for ascending code points the items from the open run on denote the open run and the code points after it |
| Regex.GroupExpand | xmlschema/regex.py:197-249 | for distinct sorted code points the generated items denote exactly those code points, in order |
| Regex.RunsClosed | xmlschema/regex.py:221-226 | a duplicate ends the output with a range from the duplicated code point to the largest code point |
| Regex.GroupClosed | xmlschema/regex.py:221-226 | sorted code points whose first duplicate follows index j denote the code points before j and then every code point from the duplicate up to the largest one |
| Regex.JoinWritten | xmlschema/regex.py:205-249 | the joined text of parsable items is written item by item from where it starts |
| Regex.JoinParsed | xmlschema/regex.py:133-194 | generated items written after the first position parse back, without error, into the code points they denote |
| Regex.GroupParsed | xmlschema/regex.py:133-249 | a whole generated group parses back into the code points its items denote |
| Regex.GroupRoundTrip | xmlschema/regex.py:133-249 | parse_character_group reads the group generated from distinct sorted plain code points back into those code points, without error |
| Regex.SortSorted | xmlschema/regex.py:215 | sorting leaves sorted code points unchanged |
| Regex.GenerateRoundTrip | xmlschema/regex.py:133-249 | generating and then parsing a group of strictly ascending plain code points gives them back |
| Regex.BackslashNotReparsed | xmlschema/regex.py:205-211 | the backslash is written unescaped, so the group for a backslash and a closing bracket does not parse back |
| Regex.SetElems | xmlschema/regex.py:215 | the members of a set in strictly ascending order, each exactly once |
| Regex.SubsetText | xmlschema/regex.py:287-288 | the text of a set of plain code points parses back into exactly that set |
| Regex.UnicodeSubset.constructor | xmlschema/regex.py:267-268 | a subset built without arguments is empty |
| Regex.UnicodeSubset.Add | xmlschema/regex.py:305-311 | a code point in [0, maxunicode] is added; any other is a value error and nothing changes |
| Regex.UnicodeSubset.Discard | xmlschema/regex.py:313-319 | a code point in [0, maxunicode] is removed; any other is a value error and nothing changes |
| Regex.UnicodeSubset.AddString | xmlschema/regex.py:321-323 | every code point the group yields is added, those yielded before an error included, and the error is passed on |
| Regex.UnicodeSubset.DiscardString | xmlschema/regex.py:325-327 | every code point the group yields is removed, and the error is passed on |
| Regex.UnicodeSubset.Complement | xmlschema/regex.py:302-303 | the code points of [0, maxunicode] that are not members |
| Regex.UnicodeSubset.Text | xmlschema/regex.py:287-288 | str() of a subset of plain code points parses back into its members |
| Regex.SwapComplementsPositive | xmlschema/regex.py:541-542 | swapping the parts of a group with only a positive part complements it |
| Regex.SwapKeepsOutsiders | xmlschema/regex.py:541-542 | as written: both a group with both parts and its swap contain the same outside code point, so the swap is not a complement |
| Regex.Complemented | xmlschema/regex.py:541-542 | corrected: a group holding exactly the code points the given group lacks |
| Regex.Intersected | xmlschema/regex.py:458-466 | a group holding exactly the code points both groups hold |
| Regex.Subtracted | xmlschema/regex.py:458-466 | corrected: a group holding exactly the code points of the first group that the second lacks |
| Regex.SubtractAsWrittenKeeps | xmlschema/regex.py:458-466 | as written, subtracting a group that contains a code point can leave that code point in the result |
| Regex.MaxOf | xmlschema/regex.py:425-427 | max() of a non-empty set: a member no smaller than any other |
| Regex.MembersBelow | xmlschema/regex.py:429-432 | the members of a group below a bound, in ascending order |
| Regex.ClosedMembers | xmlschema/regex.py:423-435 | with a negative part whose largest code point is below maxunicode, the code points written for str() denote exactly the group's members |
| Regex.ClosedDenotes | xmlschema/regex.py:429-435 | the members below the largest code point, then that code point plus one twice, denote exactly the group's members |
| Regex.CharClassOf | xmlschema/regex.py:544-550 | the class written for a group matches exactly the group's members |
| Regex.Composite | xmlschema/regex.py:350-393 | the categories a one-letter reference unites are all general categories |
| Regex.UnionOf | xmlschema/regex.py:350-393 | the union holds every named category and nothing outside them |
| Regex.UnknownBlockLeaks | xmlschema/regex.py:395-400 | as written, "Is" followed by an unknown block name gets past the guard and fails on the lookup instead of being an invalid reference |
| Regex.AnyPrefixSelectsBlock | xmlschema/regex.py:398-400 | as written, any two characters before a known block name select that block |
| Regex.UnicodeSubsetOf | xmlschema/regex.py:349-400 | corrected: a reference is resolved exactly when it is a composite, a category, or "Is" with a known block; a category gives its table and a block its code points; any other reference is an invalid-reference error |
| Regex.CompositeUnion | xmlschema/regex.py:350-393 | a composite reference covers every one of its categories and nothing more |
| Regex.TokenAt | xmlschema/regex.py:407 | a shortcut or property token found at an index has at least two characters and lies within the string |
| Regex.SplitAlternates | xmlschema/regex.py:469 | re.split with one capturing group gives text parts and tokens alternating, one more text part than tokens |
| Regex.SplitConcat | xmlschema/regex.py:469 | the parts of the split join back into the string |
| Regex.SplitPlain | xmlschema/regex.py:469 | a string without backslashes is one text part |
| Regex.AddPlainText | xmlschema/regex.py:500-501 | text without backslashes adds the code points of its group to the positive part only |
| Regex.AddEmptyPart | xmlschema/regex.py:500-501 | an empty part changes nothing |
| Regex.AddDigits | xmlschema/regex.py:474-475 | \d adds the ten decimal digits to the positive part and leaves the negative part alone |
| Regex.CharGroup.constructor | xmlschema/regex.py:410-412 | a new group has two fresh, empty parts |
| Regex.CharGroup.Clear | xmlschema/regex.py:537-539 | both parts become empty and the group matches nothing |
| Regex.CharGroup.Complement | xmlschema/regex.py:541-542 | as written: the two parts are swapped, which complements the group when it has only a positive part |
| Regex.CharGroup.ComplementMembers | xmlschema/regex.py:541-542 | corrected: the group's members become exactly the code points it lacked |
| Regex.CharGroup.AddOne | xmlschema/regex.py:470-501 | one split part is added to the positive or the negative part as its shortcut, reference or text says |
| Regex.CharGroup.Add | xmlschema/regex.py:468-501 | the string is split into text and tokens and each part is added in turn, stopping at the first error |
| Regex.CharGroup.GetCharClass | xmlschema/regex.py:544-550 | the class text written for the group matches exactly the group's members |
| Regex.ScanEnd | xmlschema/regex.py:566-580 | the scan stops at a ']' or a '-[' at or after the group start, skipping escaped characters |
| Regex.ParseClass | xmlschema/regex.py:553-593 | a parsed class ends at a closing bracket after its start |
| Regex.ClassEnd | xmlschema/regex.py:582-593 | the rest of a class ends at a closing bracket no earlier than its group's end |
| Regex.NegatedClass | xmlschema/regex.py:560-578 | "[^g]" matches exactly the code points that g lacks |
| Regex.ClassGoesOn | xmlschema/regex.py:575-593 | a class whose group ends in "-[" goes on to the subtraction |
| Regex.SubtractedClass | xmlschema/regex.py:582-593 | "[g-[h]]" matches the code points of g that h does not match |
| Regex.CloseBrace | xmlschema/regex.py:628-633 | the first '}' from the index on, or none when there is none |
| Regex.Step | xmlschema/regex.py:604-641 | each turn of the translation loop moves forward |
| Regex.TranslateFrom | xmlschema/regex.py:603-644 | a translated tail ends with '$' |
| Regex.PythonRegex | xmlschema/regex.py:596-644 | the Python regex starts with '^' and ends with '$' |
| Regex.DotTranslated | xmlschema/regex.py:605-606 | a dot becomes the class of every character but the line ends |
| Regex.OrdinaryCopied | xmlschema/regex.py:639-644 | a regex of ordinary characters is copied between the anchors |
| Regex.FindBrace | xmlschema/regex.py:626-633 | the search loop finds the first '}' after the escape, or none |
| Regex.EscapeStep | xmlschema/regex.py:622-636 | the group object is cleared, filled from the escape and written as a class |
| Regex.StepShortcut | xmlschema/regex.py:621-624 | \i, \I, \c and \C are expanded through a group of their shortcut |
| Regex.StepReference | xmlschema/regex.py:625-636 | \p{...} and \P{...} without a closing brace are a truncated-escape error; otherwise they are expanded through a group up to the brace |
| Regex.ShortcutStep | xmlschema/regex.py:621-624 | a shortcut escape built in the group object gives the step the function describes |
| Regex.ReferenceStep | xmlschema/regex.py:625-636 | a reference escape built in the group object gives the step the function describes |
| Regex.TranslateStep | xmlschema/regex.py:604-641 | one turn of the translation loop, with the shared group object, gives the step the function describes |
| Regex.GetPythonRegex | xmlschema/regex.py:596-644 | the loop computes the translation the function describes |

## Left out

- Resources, documents, WSDL and XML parsing: file, URL and network I/O, lazy iterparse and a threading lock. The model starts from already-parsed elements, given as values.
- Global maps, schema building and complex-type construction: they run through builders and loaders that are not part of this model. Global elements are given as a map parameter.
- Atomic value conversion (`to_python`/`from_python`, Decimal, datetime and binary types) and `count_digits`: an opaque decoding function is a parameter of the list, union, element and attribute decoders.
- Pattern facets, assertion facets, type alternatives and identity constraints: they need XPath and pattern translation from elementpath. A pattern is reduced to whether it matches the empty string.
- The enumeration facet's NaN/INF handling and all floating-point arithmetic.
- The Unicode category tables built by scanning `unicodedata`, and the `CHARACTER_BLOCKS` table: both are parameters of `Regex.UnicodeSubsetOf`, `Regex.CharGroup.Add` and the regex translation. The debug `print` in `XsdRegexCharGroup.add` is not modelled.
- `XsdRegexCharGroup.discard`, `__iter__`, `__len__` and `__repr__`, and `UnicodeSubset.copy`/`__iter__`/`__len__`: iteration order and object copies are not modelled; membership and the character-class text are.
- The I and C shortcut replacement strings are kept as the raw text the source writes. Their `\u` escapes are read as `parse_character_group` reads them, not as the code points they name.
- Regex.GenerateRoundTrip: the round trip is proved only for plain code points. Code points above 126 are written as `\uXXXX`, which does not parse back as one code point. The backslash is written unescaped, and `Regex.BackslashNotReparsed` shows such a group failing to parse back.
- Regex.ParseClass: `parse_character_class` is modelled on group values, not on the shared `XsdRegexCharGroup` object it rebinds. The IndexError of an unterminated class is the error value `IndexOutOfRange`.
- Models.ModelVisitor.Advance: the `while True` loops of `advance` and `stop`, and the loops of the group drivers and content iterators that call them, are bounded by a step budget of 1000000 (`STEP_LIMIT`). A run that would take more steps ends with the error `StepLimit`, which the source does not have. `Content.PlaceByModel` and `Content.IterUnorderedContent` return the same error.
- Models.ModelVisitor.Advance: the contract states exactly when the element's own violation comes first, through `StopItemSpec`. The group violations that follow are stated turn by turn (`GroupExhausted`, `EndVisit`), not as one function of the starting state.
- Models.ModelVisitor.Stop: its contract states that the visit ends or an error is returned, and the shape of each violation. Which violations each call of `Advance` reports is stated by `Advance`, not gathered into one function over the whole loop.
- Models.CheckModel: its contract states only the depth limit. What the pair checks decide is stated by the lemmas on `PairChecks` (`Models.PairChecksMeaning`, `Models.PairChecksOk`, `Models.PairChecksFirstError`).
- Elements.ElementsOverlap11Sound: only one direction is proved. Overlapping XSD 1.1 elements share a name they both stand for; the converse is not stated.
- Content.SortCData: character data parts with the same index keep their input order, where xmlschema/validators/models.py:457-459 and 465 sort the (index, value) pairs and so order them by value, smallest first; the TypeError that sorting raises for two values of one index that cannot be compared is not modelled either. Content.SortContent and Content.IterUnorderedContent inherit both differences. The values are of any type here, so the model has no order on them.
- Content.SortContent: orders its character data with Content.SortCData, so parts with the same index keep their input order instead of being ordered by value.
- Content.IterUnorderedContent: the contract states that the placed names come first and are matched by leaves of the model, that the loop stops only when the visit ends or nothing is left, and that content is neither lost nor duplicated. Which leaf placed each name is stated turn by turn (`Content.PlaceKey`: the current element), not as a sequence over the whole visit. A dictionary value that is an empty list is dropped. The source raises IndexError (models.py:478) when the model matches that name. Its character data parts with the same index come out in input order, as Content.SortCData says.
- Content.IterCollapsedContent: the order of the output is stated only for content where no child repeats the name of the child before it (it is then the input). When items are held back, the contract states that no item is lost or added and that character data keeps its order, not where each held item comes out.
- XsdUnion.iter_encode (simple_types.py:1138-1171) is not modelled. Union decoding is.
- The `validation_only`, `keep_unknown` and `depth_filler` options of element decoding, the xsi:type lookup and `extra_validator`/`validation_hook`: they call into code that is not part of this model.
- Only the vc:minVersion / vc:maxVersion part of `version_check` is modelled. The vc:typeAvailable, vc:typeUnavailable, vc:facetAvailable and vc:facetUnavailable tests need the global type map.
- Python exception types and messages are reduced to error constructors. `gettext` translation and logging are not modelled.
- Wildcards.XsdWildcard.Union models the union as written; the corrected union is the function `Wildcards.UnionNamespacesFixed` (see Findings).
- PairCheck: the XSD 1.1 element-to-element consistency test is `Elements.ElementsConsistent11Fixed`, not the loop of elements.py:1421-1433 (Findings row 3). It compares the element itself where the source compares the last substitute.
- CheckModel: its pair checks use the corrected consistency test, as `PairCheck` does.
- ElementWildcardConsistent11: it compares the element with the resolved global element through `Elements.ElementsConsistent11Fixed` (Findings row 3).
- EncodeItems: the errors of `model.stop()` carry `GroupEncoding.StopIndex` (Findings row 1). On empty content that is 0, where groups.py:883-885 gives 1.
- EncodedFrom: its layout and errors are those of `EncodeItems`, with the same stop index.
- EncodeChildren: its errors at the end of the content carry the corrected stop index, as in `EncodeItems`.
- ParseOutcomeOf: the message is unquoted with `XsdBase.Unquote` (Findings row 4). A blank message is collected or raised as a parse error, where xsdbase.py:205-208 raises IndexError.
- ParseError: its outcome is `ParseOutcomeOf`, with the same unquoting.
- VersionCheck: vc:minVersion and vc:maxVersion are compared as decimals (`Schemas.VcCompatible`, Findings row 5). With `vc:minVersion="1.10"` on XSD 1.1 the source skips the element and the model keeps it. The two agree on every one-digit `d.d` version (`Schemas.VcAgreesOnOneDigitVersions`).
- ParseClass: a negated class `[^...]` is complemented with `Regex.Complemented` (Findings row 6), so `[^a\S]` matches white space only. A subtraction uses `Regex.Subtracted` (Findings row 8).
- NegatedClass: it states the corrected negation; the source's `[^a\S]` matches every code point but `a`.
- ClassEnd: a subtraction `-[...]` uses `Regex.Subtracted` (Findings row 8), so `[a\S-[\S]]` does not contain `a`, which the source keeps.
- SubtractedClass: it states the corrected subtraction, which `__isub__` does not compute.
- AddOne: `\p{...}` and `\P{...}` are resolved with `Regex.UnicodeSubsetOf` (Findings row 7). `\p{XXBasicLatin}` is rejected, where the source selects the block, and `\p{IsFoo}` is an error value, where the source raises KeyError.
- AddPart: it resolves references with `Regex.UnicodeSubsetOf`, as `AddOne` does.
- StepReference: the braced reference is resolved through `Regex.UnicodeSubsetOf`, as in `AddOne`.
- PythonRegex: negated and subtracted classes and `\p{Is...}` references are translated with the corrected members above. So `[^a\S]` gives a different Python regex than `get_python_regex`.
- MapContent: an empty tag name is kept under the key `''`. The source raises IndexError on `name[0]` (default.py:276).
- ParseInt: only ASCII digits are read, and `_` separators are rejected. Python's `int()` also accepts `1_0` and non-ASCII decimal digits. `Schemas.VersionForm` and the converter's key classification read ASCII digits only too, where `\d` and `str.isdigit` accept other decimal digits.
- IsWordChar: the `\w` characters of the pattern that splits a character group into parts are ASCII-only. Python's `\w` also matches non-ASCII letters and digits.
- ValidatorsOf: the validators are a set, so the order in which simple_types.py:110-125 builds and runs them is lost, and so is the order of their errors.

## Findings

| source | as written | input that shows it | evidently intended | confidence | as-written member | corrected member |
|---|---|---|---|---|---|---|
| xmlschema/validators/groups.py:883-885 | the errors of `model.stop()` during encoding get the index `index - cdata_index + 1` | empty content: `index` stays 0 and the errors get index 1, past the end of the (empty) content | the position after the last name of the content, which is 0 for empty content | not executed | GroupEncoding.StopIndexAsWritten (GroupEncoding.StopIndexEmptyContent, GroupEncoding.StopIndexAgrees) | GroupEncoding.StopIndex |
| xmlschema/validators/wildcards.py:283-292 | `##other` united with a list that holds the target namespace but not `''` gives `##other` | target namespace `tns1`: `['tns1']` ∪ `['##other']` gives `['##other']`, which no longer admits `tns1` | the union admits everything either wildcard admits (section 3.10.6.3 of XML Schema 1.1 Part 1): here every namespace but absence (`not ['']`) | not executed | Wildcards.UnionDropsTargetNamespace | Wildcards.UnionNamespacesFixed (Wildcards.UnionFixedAllows, Wildcards.UnionFixedFails) |
| xmlschema/validators/elements.py:1421-1433 | after the `for e1 in self.iter_substitutes()` loop finds no match, `e1` is left bound to the last substitute instead of `self` | `a` (type 7) heads `s` (type 8, one type alternative); `b` heads `x`, which is named `a` and has type 7: `s` is compared with `x` and the pair is reported inconsistent | compare `self` with the substitute of `other` that has its name: `a` and `x` agree | not executed | Elements.ConsistentPairLeak | Elements.ElementsConsistent11Fixed (Elements.ConsistentPairFixed) |
| xmlschema/validators/xsdbase.py:205-208 | `message[0]` is read before checking that the stripped message is non-empty | `parse_error` given an exception whose text is empty or blank raises IndexError | a blank message is kept as it is | not executed | XsdBase.UnquoteAsWritten (XsdBase.UnquoteEmptyFails) | XsdBase.Unquote (XsdBase.UnquoteWrapped) |
| xmlschema/validators/schemas.py:1138-1147 | vc:minVersion and vc:maxVersion are compared with `XSD_VERSION` as strings | `vc:minVersion="1.10"` excludes an XSD 1.1 schema although 1.10 equals 1.1 as a decimal; `vc:maxVersion="1.10"` and `"1.1"` disagree too | compare the versions as decimals, as section 4.2.2 of XML Schema 1.1 Part 1 states | not executed | Schemas.VcCompatibleAsWritten (Schemas.TrailingZeroExcludes) | Schemas.VcCompatible (Schemas.VcTrailingZero, Schemas.VcAgreesOnOneDigitVersions) |
| xmlschema/regex.py:541-542 | `complement` swaps the positive and negative parts | `[^a\S]`: the group `a\S` has positive `{a}` and negative white space; after the swap it matches every code point but `a`, instead of white space only | the group matches exactly the code points it did not match | not executed | Regex.CharGroup.Complement (Regex.SwapKeepsOutsiders) | Regex.CharGroup.ComplementMembers (Regex.Complemented) |
| xmlschema/regex.py:398-400 | the guard is `ref[:2] != 'Is' and ref[2:] not in CHARACTER_BLOCKS` | `IsFoo` passes the guard and raises KeyError; `XXBasicLatin` selects the BasicLatin block | `or`: only "Is" followed by a known block name is accepted | not executed | Regex.UnicodeSubsetAsWritten (Regex.UnknownBlockLeaks, Regex.AnyPrefixSelectsBlock) | Regex.UnicodeSubsetOf |
| xmlschema/regex.py:458-466 | `__isub__` on a group with a negative part adds `other.negative - self.negative` to the positive part and clears the negative part | `[a\S] -= [\S]`: both groups contain `a`, yet the result has positive `{a}` and no negative part, so it still contains `a` | the result holds exactly the code points of the first group that the second lacks | not executed | Regex.SubtractedAsWritten (Regex.SubtractAsWrittenKeeps) | Regex.Subtracted |
