# Memory assistant: book, section and quiz-chat services

A Dafny model of the three services at the heart of the memory assistant.

- **BookService** keeps the user's PDF books:
  - stores each PDF in an S3 bucket under `user/title_uuid`;
  - keeps a record per book in the `books` collection;
  - reads page windows of the PDF as text.
- **SectionService** cuts a book into sections:
  - reads table-of-contents entries through a language-model oracle;
  - keeps the `order` numbers of a book's sections when one is inserted or deleted;
  - stores questions inside sections.
- **ChatService** runs a quiz session over the questions of some sections:
  - asks the next unanswered question;
  - classifies each user message as an answer, a request for help or anything else;
  - logs every exchange in a linked transcript;
  - computes the overall score as the mean of the feedback scores;
  - saves the session and summarises it.

The models of the stores:
- MongoDB collections are in-memory values:
  - the `sections` collection is a `seq` in its natural order, because callers observe the order `list` returns;
  - the `books` and `chat_sessions` collections are maps keyed by id.
- The S3 bucket is a map from object key to the page texts of the stored PDF.
- Each service is a `class`. Its fields are updated by its methods, as in the source.
- The language-model functions (`get_section_info`, `generate_questions`, `determine_message_type`, `evaluate_answer`, `generate_explanation`) are uninterpreted function-typed constants of the services.
- uuid4 values come from a counter `nextId` that hands out fresh ids.
- `random.shuffle` is any permutation, chosen with `:|`.

Files:
- `common.dfy`: Option, Result, the exceptions, and `Filter` for list comprehensions with an `if`.
- `text.dfy`: join, split with `maxsplit`, ASCII lower-casing, number printing.
- `models.dfy`: the records.
- `store.dfy`: collections, `find_one`, `replace_one`, `delete_one`, `bulk_write`.
- `books.dfy`: BookService.
- `section_layout.dfy`: the pure part of SectionService:
  - page windows;
  - table-of-contents layout and the stable sort by page;
  - order renumbering and its contiguity invariant.
- `sections.dfy`: SectionService.
- `chat.dfy`: ChatService.

## Model

| member | source | states |
|---|---|---|
| Books.GetS3Key | src/services/book_service.py:39-40 | a path not starting with `s3://` is returned as it is; otherwise the result is a suffix of the path |
| Books.S3KeyRoundTrip | src/services/s3_storage.py:36 | the key `_get_s3_key` extracts from a path `upload_file` returns is exactly the key uploaded, whatever the key holds |
| Books.PageAt | src/services/book_service.py:34 | a page index succeeds exactly within -n..n-1: index i gives page i, a negative index -k gives page n-k; otherwise IndexError |
| Books.PageTexts | src/services/book_service.py:32-36 | the texts of pages start..end inclusive, one per index; fails exactly when an index leaves the document |
| Books.GetPagesText | src/services/book_service.py:30-37 | empty range gives ""; IndexError exactly when the window leaves the document; otherwise the page texts joined by newlines |
| Books.PagesTextConcat | src/services/book_service.py:30-37 | the text of a window split in two is the two texts joined by a newline |
| Books.BookService.GetBookContent | src/services/book_service.py:83-88 | None exactly for an unknown book; otherwise the object stored under the key of the book's path when it exists, NoSuchKey when it does not |
| Books.BookService.UploadBook | src/services/book_service.py:42-65 | an existing title of the same user raises and stores nothing; otherwise the file is stored under `user/title_uuid` and a fresh record points at it, its key recovered from its path |
| Books.BookService.DeleteBook | src/services/book_service.py:70-78 | unknown book raises and changes nothing; otherwise the record and the object its path names are removed, nothing else |
| Books.BookService.AddBookStartPage | src/services/book_service.py:90-95 | None for an unknown book; otherwise only the book's first page changes |
| Books.BookService.GetBookSections | src/services/book_service.py:97-108 | None exactly for an unknown book; otherwise every and only the book's sections (with at least one question when asked) |
| Store.Get | src/repositories/base_repo.py:46-53 | the document found has the id; None only when no document has it |
| Store.Remove | src/repositories/base_repo.py:64-69 | deleting an absent id changes nothing; deleting a present one removes one document |
| Store.BulkUpdateInPlace | src/repositories/base_repo.py:87-98 | a bulk update of existing documents with distinct ids replaces each in place and keeps the rest |
| Store.BulkUpdateSelected | src/repositories/base_repo.py:87-98 | a bulk update of exactly the documents a selector picks, rewritten by an id-preserving map, rewrites those in place and keeps the rest |
| Store.FindByQuestion | src/repositories/section_repo.py:48-60 | the section found holds the question; None only when no section holds it |
| Store.QuestionIndex | src/repositories/section_repo.py:16-23 | the first position of the question in the list, None when absent |
| SectionLayout.PageWindow | src/services/section_service.py:71-75 | the window read for logical pages start..end covers exactly start..end-1, one index per page |
| SectionLayout.WindowsTile | src/services/section_service.py:63-75 | two sections meeting at a page read adjacent windows whose texts make up the text of their union |
| SectionLayout.SortByPage | src/services/section_service.py:62 | the result is sorted by page number and a permutation of its input |
| SectionLayout.SortStable | src/services/section_service.py:62 | entries on the same page keep their relative order, as Python's sort does |
| SectionLayout.InsertByPageSorted | src/services/section_service.py:62 | inserting into a sorted list keeps it sorted and adds exactly the entry |
| SectionLayout.Layout | src/services/section_service.py:53-84 | entries past the content dropped, the rest a permutation in page order, numbered 1..k, each ending where the next starts and the last at the end of the content |
| SectionLayout.SpansEntries | src/services/section_service.py:62-84 | the sections made list exactly the sorted entries they came from |
| SectionLayout.SpansShape | src/services/section_service.py:63-69 | spans of sorted entries never end before they start, start in order, and tile the content |
| SectionLayout.LowerPastKeepsOrders | src/services/section_service.py:106-114 | lowering the sections after a removed one keeps the book's orders distinct and within 1..n-1 |
| SectionLayout.DeleteKeepsContiguous | src/services/section_service.py:90-118 | deleting a section keeps every book's orders exactly 1..n |
| SectionLayout.InsertKeepsContiguous | src/services/section_service.py:174-196 | inserting at order -1 or any order from 1 keeps the book's orders exactly 1..n+1 |
| SectionLayout.InsertAtZeroBreaksContiguity | src/services/section_service.py:175-185 | order 0, which the order input accepts, gives a book that has sections an order 0, so its orders are no longer 1..n+1 |
| Sections.SpanSection | src/services/section_service.py:63-86 | one loop step stores exactly the section its span describes, or stops with the window's error |
| Sections.DeletePicked | src/services/section_service.py:99-110 | the sections picked for lowering are exactly the remaining ones of the book after the deleted order |
| Sections.DeleteBulkUpdate | src/services/section_service.py:103-118 | removing the section then bulk-updating the picked ones, lowered, gives exactly the collection `AfterDelete` describes |
| Sections.AfterDeleteIds | src/services/section_service.py:103-118 | deleting keeps ids distinct and drawn from the supply |
| Sections.InsertBulkUpdate | src/services/section_service.py:178-184 | the bulk update raises exactly the book's sections at or after the order; with none picked nothing changes |
| Sections.SectionsToRaise | src/services/section_service.py:178-182 | the loop picks exactly the sections at or after the order, in list order, each raised by one |
| Sections.ReplaceInPlace | src/repositories/base_repo.py:55-62 | replacing an existing document keeps its position and keeps ids distinct |
| Sections.SectionService.SectionText | src/services/section_service.py:162-172 | missing content raises its error; a book without a first page raises TypeError; with both present, exactly the text of the section's page window (which may be IndexError) |
| Sections.SectionService.GetQuestionsBySectionId | src/services/section_service.py:217-221 | the error exactly when the section is unknown; for a stored section exactly its questions |
| Sections.SectionService.GetQuestionById | src/services/section_service.py:223-235 | section not found; question not found exactly when the section lacks it; otherwise the first question of that section with that id |
| Sections.SectionService.GetSectionByQuestionId | src/services/section_service.py:296-300 | a section holding the question; the error exactly when no section holds it |
| Sections.SectionService.DeleteSection | src/services/section_service.py:90-118 | unknown id raises and changes nothing; otherwise the collection becomes `AfterDelete` (section gone, later sections of its book down by one) |
| Sections.SectionService.RemoveAndLower | src/services/section_service.py:99-118 | the delete, the loop and the bulk update together leave `AfterDelete` of the old collection |
| Sections.SectionService.Lowering | src/services/section_service.py:112-114 | each picked section with its order lowered by one, in order |
| Sections.SectionService.AddSectionToBook | src/services/section_service.py:159-196 | a text error changes nothing; otherwise later sections move up and the new section, with a fresh id, takes the requested order or count + 1 |
| Sections.SectionService.UpdateSection | src/services/section_service.py:120-151 | unknown id raises; name and pages always replaced, the text re-read only when a page changed; a read error changes nothing; only that section changes |
| Sections.SectionService.AddQuestion | src/services/section_service.py:263-274 | unknown section raises; otherwise a fresh question goes at the end of that section's list, nothing else changes |
| Sections.SectionService.GenerateQuestionsMagically | src/services/section_service.py:198-215 | unknown section or no text raises; otherwise one fresh "general" question per generated text, appended in order |
| Sections.SectionService.UpdateQuestion | src/services/section_service.py:276-294 | missing section or question raises and changes nothing; otherwise only that question of that section is edited |
| Sections.SectionService.CreateSectionsMagically | src/services/section_service.py:32-88 | missing content or an unreadable preface changes nothing; otherwise the first page is recorded and the sections of `Layout` are stored in order, up to the first unreadable window |
| Sections.SectionService.StoreSections | src/services/section_service.py:61-88 | the loop appends one section per span with fresh ids, numbered from 1, and stops at the first window error |
| Chat.QuestionsOf | src/services/chat_service.py:44-49 | succeeds exactly when every id names a section; otherwise the error of the first one that does not |
| Chat.QuestionsOfMembers | src/services/chat_service.py:44-49 | a question is collected exactly when one of the listed sections holds it |
| Chat.QuestionsOfFailsEarly | src/services/chat_service.py:45-48 | once a prefix of the ids fails, the whole list fails with the same error |
| Chat.ChatService.CollectQuestions | src/services/chat_service.py:44-49 | the loop returns exactly `QuestionsOf` |
| Chat.ChatService.InitChatSession | src/services/chat_service.py:38-59 | an unknown section raises and changes nothing; otherwise a new empty session and a permutation of the collected questions |
| Chat.FirstUnanswered | src/services/chat_service.py:62-63 | the first queued question not answered yet; None exactly when all are answered |
| Chat.ChatService.GetNextQuestion | src/services/chat_service.py:61-72 | that question becomes current and is logged as asked; None, changing nothing, when all are answered |
| Chat.Log | src/services/chat_service.py:152-170 | nothing without a session; otherwise one message appended, all earlier ones and the session's other fields kept |
| Chat.LogKeepsSound | src/services/chat_service.py:155-170 | appending keeps the transcript linked, feedback scored and ids fresh; the new message points at the previous last one |
| Chat.ChatService.AddMessage | src/services/chat_service.py:143-170 | the transcript is `Log` of the old one, the question id the given one or else the current question's; queue and answered set unchanged |
| Chat.History | src/services/chat_service.py:172-179 | empty without a session; one entry per message |
| Chat.HistoryLog | src/services/chat_service.py:172-179 | each logged message adds its role and text at the end of the history |
| Chat.ChatService.ProcessUserMessage | src/services/chat_service.py:74-141 | "next" marks the question answered and asks the next one or returns `__ALL_DONE__`; otherwise a missing section raises before logging, and answer, help and other are logged and answered as the source does |
| Chat.ChatService.SkipQuestion | src/services/chat_service.py:75-86 | the "next" branch: request logged, question answered, next asked or the end reported |
| Chat.ChatService.Reply | src/services/chat_service.py:95-141 | the classified branches: answer logs feedback with its score, help logs the explanation, other logs the fixed instruction |
| Chat.FeedbackScores | src/services/chat_service.py:196-203 | empty without a session; one score per feedback message, each taken from a feedback message |
| Chat.FeedbackScoresLog | src/services/chat_service.py:196-203 | logging adds a score at the end exactly when the message is feedback |
| Chat.Total | src/services/chat_service.py:194 | the sum exists exactly when no score is None |
| Chat.Mean | src/services/chat_service.py:194 | TypeError when a score is None, ZeroDivisionError for no scores, otherwise a value |
| Chat.MeanWithin | src/services/chat_service.py:194 | the mean of scores within lo..hi lies within lo..hi |
| Chat.OverallScore | src/services/chat_service.py:189-194 | 0 without a session; ZeroDivisionError exactly when nothing was scored |
| Chat.OverallScoreWithin | src/services/chat_service.py:189-194 | in a sound session with a scored answer, the overall score exists and lies within the scores' range |
| Chat.SoundScoresPresent | src/services/chat_service.py:108-115 | every feedback message of a sound session carries its score |
| Chat.ChatService.FinishChatSession | src/services/chat_service.py:181-187 | nothing without a session; a score error changes nothing; otherwise score and question count set and the session inserted, a duplicate id refused |
| Chat.ChatService.Save | src/repositories/base_repo.py:37-44 | the session takes the new values; `insert_one` stores it, refusing a taken id |
| Chat.SummarySections | src/services/chat_service.py:254-261 | a section is listed exactly when it belongs to the book and the session covers it |
| Chat.SummaryPicks | src/services/chat_service.py:254-261 | listing the book's sections, then keeping the covered ones, gives the covered sections of the whole collection in collection order |
| Chat.SummaryTitles | src/services/chat_service.py:257-264 | the titles are `order. name` of the book's covered sections, one per section in collection order; a title appears exactly when such a section has it |
| Chat.ChatService.SessionSummary | src/services/chat_service.py:250-272 | None exactly without a session; TypeError exactly when the book is gone; for a known book a summary with the saved score or 0, the question count, the feedback count and the titles of the covered sections in collection order |

## Left out

- The language-model prompts and calls (`src/llm/llm.py`) are left out; the oracles are function parameters, and an oracle that raises is not modelled.
- PDF parsing is left out. A PDF is its sequence of page texts, and `_get_pages_count` is its length.
- The document size field (`doc_size`) of book metadata is left out; it is floating point and never read by the services.
- Timestamps (`created_at`, `updated_at`) are left out.
- The `print` in `delete_book` is left out.
- `get_sections_by_book_id` is not a separate operation: it is the `list` filter `Store.ByBook`, which its callers use directly.
- `get_books_by_user_id` is left out. Its filter on the user appears only inside `TitleTaken`, together with the title test of `upload_book`.
- `get_book` is left out as an operation; it is a map lookup inside the methods that call it.
- `delete_all_sections`, `modify_question_magically` and `delete_question` are left out. They are one repository call, or an oracle call followed by `update_question`, which is modelled.
- `get_chat_session_summaries` is left out: it calls `get_section_titles`, which `SectionService` does not define, so it raises on every session.
- The UI pages are left out.
- Chat.OverallScore: does not round the mean to one decimal, because rounding a real has no counterpart here. The mean itself is modelled exactly.
- Chat.FeedbackReply: prints the score through the `showScore` parameter, because Python's float formatting is not modelled.
- Sections.SectionNotFound: error messages show ids as decimal numbers, where the source prints uuid text.
- Text.Lower: lower-cases ASCII letters only; Python's `str.lower` also folds other scripts.
- Chat.ChatService.ProcessUserMessage: requires a current question. The source dereferences `current_question` and fails with AttributeError when there is none, which is not modelled.
- Chat.ChatService.AddMessage: requires a current question when no question id is given and a session exists, for the same reason.
- The comment at section_service.py:64 says a section ends one page before the next one starts. The code at line 67 stores the next section's start page as `end_page`. The model follows the code. The window it reads (`end + first - 3`) still stops one page before the next section (see `SectionLayout.PageWindow`).
- `finish_chat_session` calls `create`, which is `insert_one`. A second finish of the same session therefore fails with a duplicate key, and the model follows that. It does not upsert.
- Mongo's `UpdateOne(..., upsert=True)` in `bulk_update` and `replace_one` is modelled as replace-or-append (`Store.Upsert`). Its upsert path never fires for the documents the services pass.
- Some source methods are modelled as a method plus a helper method holding one loop or branch of it. These are Chat.ChatService.CollectQuestions, Reply, SkipQuestion and Save, and Sections.SectionService.RemoveAndLower, Lowering, SectionsToRaise and StoreSections. The helper's own contract is what the calling method relies on.
- Sections.SectionService.StoreSections: the window-read error stops the loop with the sections made so far left stored, as the source's raise does. The source's exception type from pypdf is modelled as IndexError.
