# NeuroLearn in Dafny

NeuroLearn is a learning platform made of an Express/Mongoose backend and a
React frontend. Administrators manage users and courses. Teachers create
courses and quizzes, either by hand or generated by an AI model from a text,
and publish them under a six-digit access code. They can also turn an outline
into a slide deck. Students join courses, enter a quiz by its code, answer it
question by question, and see their score and their progress per course.

This project models the core of both halves:

- **Backend, as values and one stateful class.**
  - `Models`: the records (quiz, question, course, user, progress) and their schema constraints.
  - `QuizLogic`, `AccessCode`, `CourseRoutes`, `DocenteCourseRoutes`, `StudentCourseRoutes`, `UserRoutes`, `AuthController`, `AuthMiddleware`, `PptGenerator`, `PptController`: the decisions each route and helper takes, as pure functions over the data it read.
  - `Backend.Store`: a class holding the database collections. Each route that writes is a method with a `modifies` clause that states the new collections and keeps the invariant `Valid()`. `Valid()` says:
    - every record sits under its own id, below the id allocator;
    - access codes are unique, six digits long, and held exactly by the published quizzes;
    - e-mail addresses are unique.
- **Frontend pages.**
  - Pure logic becomes functions: validation, normalisation, filters, scores, messages.
  - Each page's mutable state becomes a class whose methods take the server's answer (or the user's confirmation) as a parameter. Each method states the page's new state.
- **Shared helpers.**
  - `Wrappers`, `Seqs`, `Text`, `Json` and `Queries` model JavaScript's `trim`, `split`, `indexOf`, `toLowerCase`, `filter` and `slice`.
  - They also model JSON values and `Number(...)`, and the Mongo queries `find`, `findOne` and `sort`.

Outside effects are parameters:
- the AI model's reply and `JSON.parse`;
- `Math.random` draws;
- bcrypt's `hash`/`compare` and JWT's `sign`/`verify`;
- clock readings;
- the server's answers as a page sees them;
- the browser's `confirm`.

The database is a set of maps from ids to records. Ids are natural numbers
allocated in creation order, so "newest first" means "largest id first".

## Model

| member | source | states |
|---|---|---|
| Models.ParseRol | src/models/User.ts:16-20 | a role string parses to a role exactly when it is the name of that role (ADMIN, DOCENTE, ESTUDIANTE) |
| Models.ParseUserEstado | src/models/User.ts:21-25 | a status string parses to a status exactly when it is its name (Activo, Bloqueado) |
| Models.RoleOrDefault | src/controllers/authController.ts:28 | `rol \|\| "ESTUDIANTE"`: a missing or empty role means ESTUDIANTE; any other string is accepted exactly when it names a role |
| Models.NewQuestionDefaults | src/models/Quiz.ts:21-33 | a question gets a 30-second limit and 1000 points by default, and is valid exactly when its statement is non-empty and it has at least two options |
| Models.NewQuizDefaults | src/models/Quiz.ts:36-52 | a new quiz is a draft without a code, valid with no questions exactly when its title is non-empty; the sparse code index admits any number of quizzes without a code |
| Models.DefaultCourseDefaults | src/models/Course.ts:15-49 | a default course is Activo, taught by "Sin asignar", with nobody enrolled and zero counters, and valid exactly when its name is non-empty |
| Models.NewProgressDefaults | src/models/StudentQuizProgress.ts:13-26 | a new progress record is pendiente with no score and no finishing time, under its three references |
| Models.InsertUserKeepsEmailsUnique | src/models/User.ts:14 | adding a user whose email is free keeps the unique email index |
| Json.Prop | src/routes/quizRoutes.ts:183-192 | a property read finds a value only on an object |
| Json.PropFound | src/routes/quizRoutes.ts:183-192 | a value found comes from a field with that key; an object without the key gives undefined; an object with it gives a value |
| Json.LastFieldFound | src/routes/quizRoutes.ts:183-192 | the same over a field list, the last field with the key winning: a value is found exactly when some field has the key |
| Json.StringToNumber | src/routes/quizRoutes.ts:99 | `Number(s)` on a string: a blank string is 0; otherwise a number exactly when the trimmed text is an integer literal |
| Json.NumberOr | src/routes/quizRoutes.ts:99 | `Number(v) \|\| d`: the default when the value is not a number or is 0, the number otherwise |
| Json.NumberOfPrintedInt | src/routes/quizRoutes.ts:190 | `Number` reads back every printed integer |
| Json.ToNumber | src/routes/quizRoutes.ts:99 | `Number(v)`: undefined and objects are NaN, null is 0, booleans are 0 or 1, strings go through `StringToNumber`, arrays through their printed text; `NumberOr` states what the route takes from it |
| Json.ToJsString | src/routes/quizRoutes.ts:186 | `String(v)`: "null", "true" or "false", a number's decimal text, a string itself, arrays their elements comma-separated with null elements printed as nothing, every object "[object Object]" |
| Queries.FindIds | src/routes/studentCourseRoutes.ts:12 | a `find` in storage order: exactly the ids below the bound whose record matches, in increasing order |
| Queries.FindIdsNewestFirst | src/routes/studentCourseRoutes.ts:35 | `find(...).sort({ creadoEn: -1 })`: exactly the matching ids, largest (newest) first |
| Queries.FindNewestFirst | src/routes/docenteCourseRoutes.ts:47 | `find(filter).sort({ creadoEn: -1 })`: every listed document is stored and matches, every matching document is listed, in the order of `FindIdsNewestFirst` |
| Queries.Values | src/routes/docenteCourseRoutes.ts:47 | the records under the ids a `find` returns; with `FindIds` and `FindIdsNewestFirst` the list routes answer exactly the matching records, in their order |
| Queries.FindFirst | src/routes/quizRoutes.ts:360 | a `findOne`: the least matching id, or none when no record matches |
| Queries.FirstIsLeast | src/routes/quizRoutes.ts:360 | no record below the first found id matches |
| Queries.FindFirstUnique | src/routes/quizRoutes.ts:360 | when exactly one record matches, `findOne` returns it |
| AccessCode.CandidateInRange | src/utils/generarCodigoQuiz.ts:10-11 | every draw in [0, 1) gives a number from 100000 to 999999 |
| AccessCode.CandidateText | src/utils/generarCodigoQuiz.ts:11 | the printed candidate has six digits and does not start with 0 |
| AccessCode.FirstFreeDraw | src/utils/generarCodigoQuiz.ts:9-22 | the first draw from a position on whose code no quiz holds; every draw before it collides |
| AccessCode.GenerarCodigo | src/utils/generarCodigoQuiz.ts:8-23 | the loop returns the code of the first non-colliding draw: six digits, held by no quiz, and every earlier draw was taken |
| AccessCode.FirstFreeIsFirst | src/utils/generarCodigoQuiz.ts:14-19 | a free draw with every earlier draw taken is the one the generator settles on |
| QuizLogic.CantidadPreguntas | src/routes/quizRoutes.ts:99 | `Number(numPreguntas) \|\| 5`: never 0; the given number when it is one and non-zero; 5 when it is not a number |
| QuizLogic.StripFences | src/routes/quizRoutes.ts:156-159 | the cleaning chain: every "```json" in any letter case removed, then every "```", then `trim`; what it guarantees is `StripFencesClean` |
| QuizLogic.StripFencesClean | src/routes/quizRoutes.ts:156-159 | the cleaned AI reply contains no code fence and is already trimmed |
| QuizLogic.StringOrEmpty | src/routes/quizRoutes.ts:184 | `String(v ?? "")`: undefined and null become "", a string stays itself |
| QuizLogic.NormalizeQuestion | src/routes/quizRoutes.ts:183-192 | each generated question: its statement as a string, its options as strings (none unless an array), its index (a number, or `Number(...) \|\| 0`), 30 seconds and 1000 points |
| QuizLogic.NormalizeWellFormed | src/routes/quizRoutes.ts:108-123 | a question in the shape the prompt asks for is normalised to exactly that question |
| QuizLogic.AiQuestions | src/routes/quizRoutes.ts:145-192 | an empty reply, an unparsable reply and a reply without questions each give their own 500 message; otherwise the normalised `preguntas` array |
| QuizLogic.PreguntasIA | src/routes/quizRoutes.ts:176-178 | `Array.isArray(parsed.preguntas) ? parsed.preguntas : []`: nothing for a value that is not an object; any question found is an item of the reply's `preguntas` array |
| QuizLogic.QuestionsOfReply | src/routes/quizRoutes.ts:176-199 | a `null` reply is the generic 500, since reading its property throws; no questions is the "no valid questions" 500; every failure is a 500; a success is one normalised question per listed item, in order |
| QuizLogic.QuestionsOfItems | src/routes/quizRoutes.ts:176-199 | no questions is its own 500 error; the questions are stored exactly when every item is non-null and normalises to a question the schema accepts, and then they are those normalised questions |
| QuizLogic.NormalizeAll | src/routes/quizRoutes.ts:183-192 | one normalised question per item, in order |
| QuizLogic.AiQuestionsAccepts | src/routes/quizRoutes.ts:156-192 | a non-empty reply that parses after cleaning to an object with a non-empty `preguntas` array yields exactly its normalised questions |
| QuizLogic.PublishQuiz | src/routes/quizRoutes.ts:334-345 | publishing leaves a Publicado quiz with a code: its own code if that is truthy (non-empty), the drawn one otherwise; title, course and questions untouched |
| QuizLogic.PublishIdempotent | src/routes/quizRoutes.ts:334-336 | publishing a published quiz again changes nothing, whatever non-empty code would be drawn |
| QuizLogic.EditQuiz | src/routes/quizRoutes.ts:303-309 | `findByIdAndUpdate` with `{ titulo, preguntas }`: a field left undefined is kept; id, course, state and code never change |
| QuizLogic.EditLaws | src/routes/quizRoutes.ts:303-309 | an empty edit is the identity, and repeating an edit changes nothing more |
| QuizLogic.BuscarPorCodigo | src/routes/quizRoutes.ts:356-368 | the quiz found carries exactly that code; 404 exactly when no quiz holds it |
| QuizLogic.BuscarPorCodigoUnique | src/routes/quizRoutes.ts:360 | with unique codes, the quiz found is the one quiz holding the code |
| QuizLogic.LatestIndex | src/routes/quizRoutes.ts:24-27 | `sort({ finishedAt: -1 })` then the first: no record sorts before the chosen one, and every record before it in storage order has a strictly earlier finish time |
| QuizLogic.StatusLookup | src/routes/quizRoutes.ts:16-48 | no record for the student and quiz gives (pendiente, null); otherwise the latest record's status and score |
| QuizLogic.FirstWithKey | src/routes/quizRoutes.ts:394-402 | the position of the first record with the (user, quiz, course) key, or -1 when there is none |
| QuizLogic.Upsert | src/routes/quizRoutes.ts:394-402 | `findOneAndUpdate(..., { upsert: true })` on the (user, quiz, course) key; what a submission does to the record list is stated by `UpsertRecordCount`, `ResubmitOverwrites` and `SubmitThenStatus` |
| QuizLogic.UpsertRecordCount | src/routes/quizRoutes.ts:394-402 | a submission leaves one more record for its key when there was none, and the same number otherwise |
| QuizLogic.ResubmitOverwrites | src/routes/quizRoutes.ts:394-402 | submitting twice for the same key is the same as submitting once with the second score and time |
| QuizLogic.SubmitThenStatus | src/routes/quizRoutes.ts:16-48 | after a submission stamped later than every earlier finish time, the status route reports completado with that score |
| CourseRoutes.MisCursos | src/routes/courseRoutes.ts:24-37 | one view per active course, in order, with `yaInscrito` true exactly when the student is enrolled |
| CourseRoutes.StudentDetail | src/routes/courseRoutes.ts:51-81 | 404 for a missing course, 403 when the student is not enrolled; otherwise the course marked as enrolled |
| CourseRoutes.AdminCreate | src/routes/courseRoutes.ts:84-109 | created exactly when the name is truthy and the state empty or valid (otherwise 500); the schema defaults (`Models.DefaultCourse`) with the state, teacher and counters the body sends, `\|\|` and `??` falling back to Activo, "Sin asignar", 0 and 0 |
| CourseRoutes.SetEstado | src/routes/courseRoutes.ts:302-315 | `findByIdAndUpdate` with `{ estado }`: the state becomes the one sent, or stays when none is sent, and no other field changes |
| CourseRoutes.Unirse | src/routes/courseRoutes.ts:140-182 | 400 when the course is not Activo, 400 when the student is already enrolled, 500 when the save fails; on success the student is appended and the counter is the list's length |
| CourseRoutes.Salir | src/routes/courseRoutes.ts:188-231 | 400 when the student is not enrolled, 500 when the save fails; on success every entry of the student is removed and the counter is the list's length |
| CourseRoutes.UnirseEnrols | src/routes/courseRoutes.ts:161-172 | after joining, the student is enrolled and the counter agrees with the list |
| CourseRoutes.SalirRemoves | src/routes/courseRoutes.ts:210-216 | after leaving, the student is not enrolled, every other student stays, and the counter agrees with the list |
| CourseRoutes.UnirseThenSalir | src/routes/courseRoutes.ts:140-231 | joining then leaving restores the enrolment list, with the counter resynchronised |
| CourseRoutes.ApplyPatch | src/routes/courseRoutes.ts:234-260 | the admin PUT writes exactly the fields that are not undefined and keeps the others, including the enrolment list |
| CourseRoutes.ApplyPatchLaws | src/routes/courseRoutes.ts:246-254 | an empty patch is the identity, and patching twice with the same body changes nothing more |
| CourseRoutes.DeleteGuard | src/routes/courseRoutes.ts:285-290 | deletion is allowed exactly when `totalEstudiantes` is not positive; otherwise 400 with the route's message |
| CourseRoutes.DeleteGuardMeansEmpty | src/routes/courseRoutes.ts:285-290 | for a course whose counter agrees with its list, deletion is allowed exactly when nobody is enrolled |
| DocenteCourseRoutes.OwnerName | src/routes/docenteCourseRoutes.ts:17 | `req.user.nombre \|\| "Docente sin nombre"`: never empty, and the caller's name when it has one |
| DocenteCourseRoutes.Create | src/routes/docenteCourseRoutes.ts:14-39 | 400 without a truthy name; otherwise an Activo course of the caller with no students and zero counters, which is valid and whose counter agrees |
| DocenteCourseRoutes.MisCursos | src/routes/docenteCourseRoutes.ts:43-54 | exactly the caller's courses: every listed course is a stored course the caller owns, every stored course of the caller is listed, newest first |
| DocenteCourseRoutes.Owned | src/routes/docenteCourseRoutes.ts:58-76 | the course is returned exactly when it exists and belongs to the caller; otherwise 404 |
| DocenteCourseRoutes.Update | src/routes/docenteCourseRoutes.ts:80-108 | only the caller's course is updated (404 otherwise), and only the name, description and state that were sent |
| DocenteCourseRoutes.UpdateKeepsOwner | src/routes/docenteCourseRoutes.ts:80-108 | an updated course still belongs to the caller |
| DocenteCourseRoutes.SetEstado | src/routes/docenteCourseRoutes.ts:112-140 | only the caller's course changes, and only its state, when one is sent |
| DocenteCourseRoutes.Delete | src/routes/docenteCourseRoutes.ts:145-177 | 404 when the course is not the caller's, 400 when it has students; allowed exactly otherwise |
| DocenteCourseRoutes.CreateThenOwned | src/routes/docenteCourseRoutes.ts:14-76 | a course a named teacher creates is then found as theirs |
| DocenteCourseRoutes.CreateThenDelete | src/routes/docenteCourseRoutes.ts:14-177 | a course a named teacher has just created can be deleted by them |
| StudentCourseRoutes.Activos | src/routes/studentCourseRoutes.ts:10-20 | exactly the Activo courses: every listed course is a stored Activo course, every stored Activo course is listed, in increasing id order without repeats |
| StudentCourseRoutes.BuildProgresoMap | src/routes/studentCourseRoutes.ts:52-62 | the `forEach` that fills the map computes the map defined by the last record per quiz |
| StudentCourseRoutes.ProgresoMapDomain | src/routes/studentCourseRoutes.ts:57-62 | a quiz is in the map exactly when some record is about it |
| StudentCourseRoutes.ProgresoMapLastWins | src/routes/studentCourseRoutes.ts:57-62 | a quiz's entry comes from the last record about it, because later `set` calls overwrite earlier ones |
| StudentCourseRoutes.Merge | src/routes/studentCourseRoutes.ts:65-74 | one view per quiz, in order: the map's status and score when there is an entry, pendiente with no score otherwise |
| StudentCourseRoutes.Ids | src/routes/studentCourseRoutes.ts:45 | the quiz ids, in order |
| StudentCourseRoutes.CourseQuizzes | src/routes/studentCourseRoutes.ts:35 | `Quiz.find({ curso: id }).sort({ creadoEn: -1 })`: every listed quiz is a stored quiz of the course, every stored quiz of the course is listed, newest first |
| StudentCourseRoutes.CursoDetalle | src/routes/studentCourseRoutes.ts:23-89 | 404 exactly for a missing course; otherwise the course found and one view per quiz of the course, in the same order, so a course with no quizzes gets an empty list |
| StudentCourseRoutes.CursoDetalleReportsLastRecord | src/routes/studentCourseRoutes.ts:35-79 | each listed quiz belongs to the course; it is pendiente with no score when the student never touched it, and otherwise reports their last record in this course |
| UserRoutes.View | src/routes/userRoutes.ts:63 | `select("-password")`: the answered user does not depend on the password hash (`ViewHidesPassword`) |
| UserRoutes.ViewHidesPassword | src/routes/userRoutes.ts:63 | two users differing only in their password hash are answered identically |
| UserRoutes.PatchEstado | src/routes/userRoutes.ts:50-77 | 400 for a status other than Activo/Bloqueado (checked first), 404 for a missing user; otherwise only the status changes |
| UserRoutes.PatchRol | src/routes/userRoutes.ts:118-145 | 400 for an unknown role, 404 for a missing user; otherwise only the role changes |
| UserRoutes.PatchEstadoIdempotent | src/routes/userRoutes.ts:59-63 | setting the same status twice is the same as setting it once |
| UserRoutes.DeleteGuard | src/routes/userRoutes.ts:80-112 | 404 for a missing user, 400 for an ADMIN, 400 for oneself; deletion allowed exactly otherwise |
| UserRoutes.DeleteKeepsAdmins | src/routes/userRoutes.ts:89-101 | a guarded delete keeps every ADMIN user unchanged |
| UserRoutes.CreateUser | src/routes/userRoutes.ts:169-207 | 400 unless name, email and password are truthy, 400 for a taken email, 500 for an unknown role or empty hash; otherwise an Activo user with the hashed password and `rol \|\| "ESTUDIANTE"` |
| UserRoutes.CreateKeepsEmailsUnique | src/routes/userRoutes.ts:177-190 | storing a created user under a fresh id keeps emails unique |
| UserRoutes.FindByEmail | src/routes/userRoutes.ts:177 | `findOne({ email })`: a user found holds that email; none is found only when no stored user has it |
| UserRoutes.FindByEmailUnique | src/controllers/authController.ts:51 | with unique emails, the lookup finds the one user holding the email |
| UserRoutes.AdminCreate | src/routes/userRoutes.ts:169-207 | 400 "all fields are required" unless name, email and password are truthy; a created user has the fresh id, is Activo, and has an email no stored user held |
| AuthController.Register | src/controllers/authController.ts:9-44 | 400 for missing data, otherwise the shared creation chain; a registered user is Activo with the email given |
| AuthController.Login | src/controllers/authController.ts:47-89 | 400 for an unknown email, 500 for an absent password (`bcrypt.compare` rejects and the catch answers), 400 for a wrong password, 403 for a blocked user; success exactly otherwise, with a token signed over id, role and name |
| AuthController.RegisterThenLogin | src/controllers/authController.ts:9-89 | whoever registers is then found by their email and logs in with their password |
| AuthMiddleware.TokenOf | src/middleware/authMiddleware.ts:30 | `const [, token] = header.split(" ")`: the second space-separated field, present exactly when there are at least two |
| AuthMiddleware.TokenOfSchemeAndToken | src/middleware/authMiddleware.ts:30-34 | a header of a space-free scheme, a space and a space-free token yields that token |
| AuthMiddleware.AuthDecision | src/middleware/authMiddleware.ts:17-45 | 401 with its own message for no header, no token, or a token that does not verify; success exactly otherwise, with the verified payload |
| AuthMiddleware.Request.RequireAuth | src/middleware/authMiddleware.ts:36-40 | on success the payload is stored in `req.user`; on failure the request is untouched |
| AuthMiddleware.RequireRole | src/middleware/authMiddleware.ts:48-83 | 401 without a user, 403 with the guard's message for another role; passes exactly for the required role |
| AuthMiddleware.RequireAdmin | src/middleware/authMiddleware.ts:48-64 | 401 without a user, 403 "Acceso solo para administradores" for another role; passes exactly for ADMIN |
| AuthMiddleware.RequireDocente | src/middleware/authMiddleware.ts:67-83 | 401 without a user, 403 "Acceso solo para docentes" for another role; passes exactly for DOCENTE |
| AuthMiddleware.AdminChain | src/middleware/authMiddleware.ts:17-64 | `requireAuth` then `requireAdmin` lets a request through exactly when its token verifies to an ADMIN payload |
| PptGenerator.Limpiar | src/utils/pptGenerator.ts:19-31 | "" stays ""; otherwise the trimmed text without control characters, cut at `maxLen` plus an ellipsis, so at most `maxLen + 1` long |
| PptGenerator.LimpiarClean | src/utils/pptGenerator.ts:22 | a cleaned text holds no control character other than tab, line feed and carriage return |
| PptGenerator.LimpiarIdempotent | src/utils/pptGenerator.ts:19-31 | cleaning a text that was not cut changes nothing |
| PptGenerator.ExtractBrackets | src/utils/pptGenerator.ts:69-77 | an error exactly when the trimmed answer lacks `[` or `]`; otherwise the slice from the first `[` to the last `]` |
| PptGenerator.SliceBrackets | src/utils/pptGenerator.ts:70-77 | on the trimmed text: an error exactly when `[` or `]` is missing; otherwise the slice from the first `[` to the last `]`, starting with `[` and ending with `]`, or "" when the last `]` comes first |
| PptGenerator.ExtractBracketsWhole | src/utils/pptGenerator.ts:69-77 | an answer that is already one bracketed text is kept whole |
| PptGenerator.Estructura | src/utils/pptGenerator.ts:65-85 | the bracket error is passed on; a result is the array the slice parses to |
| PptGenerator.BadgeDigits | src/utils/pptGenerator.ts:176 | for the first 99 slides, the badge is two digits that read as the slide's number |
| PptGenerator.Titulo | src/utils/pptGenerator.ts:188-190 | a null section fails; a string title is cleaned to at most 120 characters; an absent or empty title becomes "Sección n"; never empty |
| PptGenerator.CleanAll | src/utils/pptGenerator.ts:200-201 | each bullet, `String(b ?? "")` and cleaned, in order |
| PptGenerator.Bullets | src/utils/pptGenerator.ts:200-203 | at most eight non-empty cleaned bullets; a null section fails; a missing or falsy list gives none; an array gives its kept bullets; any other truthy value fails, since it has no `map` |
| PptGenerator.KeptBullets | src/utils/pptGenerator.ts:200-203 | at most eight, none empty |
| PptGenerator.FirstNonEmpty | src/utils/pptGenerator.ts:202-203 | at most eight, none empty |
| PptGenerator.BulletsKeepOrder | src/utils/pptGenerator.ts:200-203 | the kept bullets are the first eight non-empty cleaned ones, in order |
| PptGenerator.BodyLines | src/utils/pptGenerator.ts:205 | one line per bullet, the bullet after "• " |
| PptGenerator.Cuerpo | src/utils/pptGenerator.ts:205-207 | no bullets give "Contenido no disponible."; otherwise the text opens with the first bullet's line |
| PptGenerator.CuerpoLines | src/utils/pptGenerator.ts:205-207 | when no bullet holds a line break, the body splits at line breaks into exactly the bullets, each after "• " |
| PptGenerator.Slide | src/utils/pptGenerator.ts:156-226 | a slide exists exactly when its title and bullets do, with badge, title, body and "Diapositiva n" |
| PptGenerator.Slides | src/utils/pptGenerator.ts:156-226 | one slide per section from the starting position on |
| PptGenerator.SlidesOk | src/utils/pptGenerator.ts:156-226 | each slide of a generated deck is the slide of the section at its position, numbered by that position |
| PptGenerator.SlidesErr | src/utils/pptGenerator.ts:156-226 | the generation fails exactly when the slide of some section fails |
| PptGenerator.SlidesSpec | src/utils/pptGenerator.ts:156-226 | generating from the first section fails exactly when some section's slide fails, and otherwise yields, one per section, the slide of the section at its position |
| PptGenerator.Resolve | src/utils/pptGenerator.ts:92-98 | each omitted style field takes its default: oscuro, #4F46E5, Poppins, Inter, 7 |
| PptGenerator.Generar | src/utils/pptGenerator.ts:88-231 | the structure's error is passed on; otherwise the first `maxSlides` sections are taken, the deck fails exactly when one of their slides fails, and each content slide is the slide of the section at its position |
| PptController.MapearEstilo | src/controllers/pptController.ts:29-48 | always oscuro and #4F46E5; without a style Poppins, Inter and 7; otherwise `fuente \|\| ...` for both fonts and `slides ?? 7` |
| PptController.MapearEstiloLaws | src/controllers/pptController.ts:29-48 | `modo` and `conclusiones` have no effect, and no style resolves like an empty one |
| PptController.Validate | src/controllers/pptController.ts:63-73 | 400 without a title or without an array of sections, 400 for an empty array; otherwise the sections |
| PptController.BulletLines | src/controllers/pptController.ts:79-85 | no more lines than bullets |
| PptController.SectionText | src/controllers/pptController.ts:78-86 | a null section fails; otherwise the title, ":" and one "- " line per non-empty trimmed bullet |
| PptController.SectionTextLines | src/controllers/pptController.ts:79-85 | the lines are exactly the non-empty trimmed bullets, in order |
| PptController.HeadingLines | src/controllers/pptController.ts:79-85 | a title line followed by break-free lines splits back into "title:" and those lines, or "" when there are none |
| PptController.BulletLinesNoBreak | src/controllers/pptController.ts:79-85 | no line holds a line break when no bullet string does |
| PptController.TextoOriginal | src/controllers/pptController.ts:77-87 | the section texts joined by a blank line, or an error when some section fails |
| PptController.Sanitize | src/controllers/pptController.ts:100-102 | each of `/ \ ? % * : \| " < >` becomes "_", every other character is kept, so no forbidden character remains |
| PptController.SanitizeIdempotent | src/controllers/pptController.ts:100-102 | sanitising a sanitised name changes nothing |
| PptController.FileName | src/controllers/pptController.ts:100-102 | the name ends in ".pptx" and has the title's length, or "presentacion"'s for an empty title |
| PptController.Handler | src/controllers/pptController.ts:50-119 | validation errors are passed on and a failing section text gives 500; otherwise the deck is `Generar` over the AI answer for the title, the sections' text and the resolved slide count, under the mapped style: the answer succeeds exactly when that deck does, carrying it, the file name and the title as cover |
| Backend.Lookup | src/routes/quizRoutes.ts:285 | `findById`: found exactly when the id is present, with its record |
| Backend.IncQuizzes | src/routes/quizRoutes.ts:74 | `$inc: { totalQuizzes: d }`: only that course's counter moves by d; a missing course or no course changes nothing |
| Backend.CreateThenDeleteRestores | src/routes/quizRoutes.ts:52-81 | creating a quiz and deleting it restores both the quizzes and the course counters |
| Backend.Drawn | src/routes/quizRoutes.ts:338-341 | the code drawn for publishing is well formed and held by no quiz |
| Backend.ReplaceKeepsQuizzesValid | src/routes/quizRoutes.ts:305-309 | storing a quiz over one with the same state and code keeps codes unique and well formed |
| Backend.AddDraftKeepsQuizzesValid | src/routes/quizRoutes.ts:67-72 | storing a new draft with no code keeps the quiz constraints |
| Backend.PublishKeepsQuizzesValid | src/routes/quizRoutes.ts:334-345 | publishing with a free, well-formed code keeps the quiz constraints |
| Backend.Store.CrearQuiz | src/routes/quizRoutes.ts:52-81 | 400 without a truthy title or a course, 404 for a missing course; otherwise a new draft with no questions and no code, and its course counter goes up by one |
| Backend.Store.InsertDraft | src/routes/quizRoutes.ts:68-75 | storing a new draft under a fresh id keeps the store consistent and raises its course's quiz counter by one; nothing else changes |
| Backend.Store.CrearQuizIA | src/routes/quizRoutes.ts:86-214 | 400 and 404 as above; then the AI pipeline's errors; otherwise a draft with the normalised questions if the schema accepts them, and the counter goes up |
| Backend.Store.EditarQuiz | src/routes/quizRoutes.ts:301-320 | 404 for a missing quiz; otherwise the quiz becomes `EditQuiz` of itself, nothing else changes |
| Backend.Store.PublicarQuiz | src/routes/quizRoutes.ts:325-351 | 404 for a missing quiz; an already published quiz is returned as it is; otherwise it is published with its own code or the generator's |
| Backend.Store.Enviar | src/routes/quizRoutes.ts:378-410 | 400 without a course or a score, 404 for a missing quiz; otherwise the progress list becomes the upsert |
| Backend.Store.EliminarQuiz | src/routes/quizRoutes.ts:415-438 | 404 for a missing quiz; otherwise it is removed and its course counter goes down by one |
| Backend.Store.AdminCrearCurso | src/routes/courseRoutes.ts:84-109 | the course `AdminCreate` builds is stored under a fresh id |
| Backend.Store.Unirse | src/routes/courseRoutes.ts:140-182 | 404 for a missing course, then `Unirse`'s answer, which is stored |
| Backend.Store.Salir | src/routes/courseRoutes.ts:188-231 | 404 for a missing course, then `Salir`'s answer, which is stored |
| Backend.Store.AdminActualizarCurso | src/routes/courseRoutes.ts:234-270 | 404 for a missing course; otherwise the patched course is stored |
| Backend.Store.AdminEstadoCurso | src/routes/courseRoutes.ts:302-320 | 404 for a missing course; otherwise only its state changes |
| Backend.Store.AdminEliminarCurso | src/routes/courseRoutes.ts:275-299 | 404 for a missing course, 400 while it has students; otherwise it is removed |
| Backend.Store.DocenteCrearCurso | src/routes/docenteCourseRoutes.ts:14-39 | the course `Create` builds is stored under a fresh id |
| Backend.Store.DocenteActualizarCurso | src/routes/docenteCourseRoutes.ts:80-108 | `Update`'s answer; a success is stored under its id |
| Backend.Store.DocenteEstadoCurso | src/routes/docenteCourseRoutes.ts:112-140 | `SetEstado`'s answer; a success is stored under its id |
| Backend.Store.DocenteEliminarCurso | src/routes/docenteCourseRoutes.ts:145-177 | `Delete`'s answer; a success removes the course |
| Backend.Store.CambiarEstadoUsuario | src/routes/userRoutes.ts:50-77 | `PatchEstado`'s answer; a success is stored and answered without the password |
| Backend.Store.CambiarRolUsuario | src/routes/userRoutes.ts:118-145 | `PatchRol`'s answer; a success is stored and answered without the password |
| Backend.Store.EliminarUsuario | src/routes/userRoutes.ts:80-112 | `DeleteGuard`'s answer; a success removes only that user; ADMIN users and the caller always remain |
| Backend.Store.CrearUsuario | src/routes/userRoutes.ts:169-207 | the admin creation chain; a success is stored under a fresh id with unique emails kept |
| Backend.Store.Registrar | src/controllers/authController.ts:9-44 | the registration chain; a success is stored under a fresh id |
| Backend.Store.IniciarSesion | src/controllers/authController.ts:47-89 | an unknown email gives 400; for the stored user holding the email, the answer is `Login` on that user: the absent-password 500, the wrong-password 400, then the blocked 403, then the signed token and the summary |
| QuizEditor.Inicial | neurolearn-frontend/src/pages/docente/QuizEditarPage.tsx:36-46 | the loaded questions when there is at least one, otherwise one blank question with four empty options; never empty |
| QuizEditor.ActualizarEnunciado | neurolearn-frontend/src/pages/docente/QuizEditarPage.tsx:58-64 | only the question at the index gets the new statement; its options are untouched and every other question is unchanged |
| QuizEditor.ActualizarEnunciadoUndo | neurolearn-frontend/src/pages/docente/QuizEditarPage.tsx:58-64 | writing back the old statement restores the list |
| QuizEditor.Padded | neurolearn-frontend/src/pages/docente/QuizEditarPage.tsx:74-75 | padded with "" to at least four options, keeping the existing ones in front |
| QuizEditor.PadOpciones | neurolearn-frontend/src/pages/docente/QuizEditarPage.tsx:74-75 | the `while (nuevas.length < 4) nuevas.push("")` loop computes the padding |
| QuizEditor.ActualizarOpcion | neurolearn-frontend/src/pages/docente/QuizEditarPage.tsx:66-80 | only the chosen question changes: its options are padded to four, the chosen option holds the new text, every other option is what it was (or ""), and its statement and answer are kept |
| QuizEditor.ActualizarOpcionIdempotent | neurolearn-frontend/src/pages/docente/QuizEditarPage.tsx:66-80 | editing the same option to the same text twice is the same as once |
| QuizEditor.VisibleOpciones | neurolearn-frontend/src/pages/docente/QuizEditarPage.tsx:372-373 | the card shows exactly four option inputs |
| QuizEditor.VisibleOpcionesLoop | neurolearn-frontend/src/pages/docente/QuizEditarPage.tsx:372-373 | the card's slice-and-pad loop computes those four inputs |
| QuizEditor.ActualizarOpcionShown | neurolearn-frontend/src/pages/docente/QuizEditarPage.tsx:66-80 | after an edit the card shows the new text in that input and what it showed before in the other three |
| QuizEditor.CambiarCorrecta | neurolearn-frontend/src/pages/docente/QuizEditarPage.tsx:82-88 | only the chosen question's correct index changes |
| QuizEditor.Agregar | neurolearn-frontend/src/pages/docente/QuizEditarPage.tsx:90-99 | a blank question is appended at the end and the others stay as they were |
| QuizEditor.AgregarThenEliminar | neurolearn-frontend/src/pages/docente/QuizEditarPage.tsx:90-103 | removing the question just added restores the list |
| QuizEditor.TrimmedOpciones | neurolearn-frontend/src/pages/docente/QuizEditarPage.tsx:117 | `(p.opciones ?? []).map(o => o.trim())`: one trimmed option per option |
| Seqs.Map | neurolearn-frontend/src/pages/docente/QuizEditarPage.tsx:117 | `map` keeps the length and applies the function at every position, in order |
| QuizEditor.AllWhitespaceEvery | neurolearn-frontend/src/pages/docente/QuizEditarPage.tsx:113 | a statement is all whitespace exactly when each of its characters is JavaScript whitespace |
| QuizEditor.AllWhitespaceIsBlank | neurolearn-frontend/src/pages/docente/QuizEditarPage.tsx:113 | the page's all-whitespace test agrees with "blank once trimmed" |
| QuizEditor.FilledCount | neurolearn-frontend/src/pages/docente/QuizEditarPage.tsx:118 | at most as many filled options as options |
| QuizEditor.FilledCountIsFilterLength | neurolearn-frontend/src/pages/docente/QuizEditarPage.tsx:118 | the count is `opciones.filter(o => o).length` over the trimmed options |
| QuizEditor.QuestionChecksAsWritten | neurolearn-frontend/src/pages/docente/QuizEditarPage.tsx:113-121 | the statement check passes exactly when the statement is not blank, and the option check exactly when there are at least two options and two of them are non-empty after trimming |
| QuizEditor.QuestionError | neurolearn-frontend/src/pages/docente/QuizEditarPage.tsx:112-121 | no message exactly when the question passes both checks |
| QuizEditor.Oks | neurolearn-frontend/src/pages/docente/QuizEditarPage.tsx:111-122 | one verdict per question, in order |
| QuizEditor.FirstFalse | neurolearn-frontend/src/pages/docente/QuizEditarPage.tsx:111-122 | the first failing position from a start, or none when all pass |
| QuizEditor.ValidationError | neurolearn-frontend/src/pages/docente/QuizEditarPage.tsx:105-124 | an empty list gives "El quiz debe tener al menos 1 pregunta." |
| QuizEditor.ValidationErrorMeaning | neurolearn-frontend/src/pages/docente/QuizEditarPage.tsx:105-124 | validation passes exactly when the list is non-empty and every question passes; otherwise the message is that of the first failing question |
| QuizEditor.ValidarPreguntas | neurolearn-frontend/src/pages/docente/QuizEditarPage.tsx:105-124 | the loop that returns at the first failure gives exactly that verdict |
| QuizEditor.IndiceNumero | neurolearn-frontend/src/pages/docente/QuizEditarPage.tsx:144-146 | a number is kept; a value that is not a number becomes 0 |
| QuizEditor.Normalizada | neurolearn-frontend/src/pages/docente/QuizEditarPage.tsx:141-147 | the trimmed statement, the trimmed options and the numeric index |
| QuizEditor.Guardar | neurolearn-frontend/src/pages/docente/QuizEditarPage.tsx:126-157 | a blank title is refused with its message, then the validation message; a request is sent exactly otherwise, with the trimmed title and one normalised question per question |
| QuizEditor.NormalizadaValid | neurolearn-frontend/src/pages/docente/QuizEditarPage.tsx:105-147 | a question that passes the page's checks is one the quiz schema accepts once normalised |
| QuizEditor.GuardarYieldsValidQuiz | neurolearn-frontend/src/pages/docente/QuizEditarPage.tsx:126-157 | what the page sends, once stored by the quiz PUT route, is a schema-valid quiz with at least one question |
| QuizPlay.Aciertos | neurolearn-frontend/src/pages/estudiante/QuizEstudiantePage.tsx:74-88 | the number of right answers is at most the number of answers |
| QuizPlay.AciertosExtremes | neurolearn-frontend/src/pages/estudiante/QuizEstudiantePage.tsx:74-88 | all answers right count them all; all answers wrong count none |
| QuizPlay.PuntajeSobreDiez | neurolearn-frontend/src/pages/estudiante/QuizEstudiantePage.tsx:90-92 | `Math.round(correctas / total * 10)`: between 0 and 10, 10 for all right and 0 for none |
| QuizPlay.ResultadoDe | neurolearn-frontend/src/pages/estudiante/QuizEstudiantePage.tsx:87-110 | the result carries the total, at most that many right answers, a score from 0 to 10, and the quiz's course |
| QuizPlay.Partida.constructor | neurolearn-frontend/src/pages/estudiante/QuizEstudiantePage.tsx:21-23 | the first question, no right answers yet, one key per question |
| QuizPlay.Partida.Responder | neurolearn-frontend/src/pages/estudiante/QuizEstudiantePage.tsx:68-114 | records the answer and adds one to the count for the right index; moves to the next question, or after the last one yields the result of the whole play |
| QuizPlay.Envio | neurolearn-frontend/src/pages/estudiante/QuizEstudiantePage.tsx:95-98 | the submission carries the quiz's course and the score |
| QuizPlay.Gate | neurolearn-frontend/src/pages/estudiante/QuizEstudiantePage.tsx:50-66 | the "already completed" screen, with the stored score, exactly when the status says completado |
| QuizPlay.SubmittedQuizIsBlocked | neurolearn-frontend/src/pages/estudiante/QuizEstudiantePage.tsx:50-66 | once a submission is stored with a later time, reopening the quiz shows the completed screen with that score |
| ResultadoQuiz.OrZero | neurolearn-frontend/src/pages/estudiante/ResultadoQuizPage.tsx:9-10 | a missing count reads as 0 |
| ResultadoQuiz.Porcentaje | neurolearn-frontend/src/pages/estudiante/ResultadoQuizPage.tsx:15 | 0 without questions; otherwise from 0 to 100, 100 for all right and 0 for none |
| ResultadoQuiz.Mensaje | neurolearn-frontend/src/pages/estudiante/ResultadoQuizPage.tsx:17-26 | the five messages by tier: exactly 100, from 80, from 60, from 40, below 40 |
| ResultadoQuiz.MensajeDistinguishesTiers | neurolearn-frontend/src/pages/estudiante/ResultadoQuizPage.tsx:17-26 | two percentages get the same message exactly when they are in the same tier |
| ResultadoQuiz.PerfectoThreshold | neurolearn-frontend/src/pages/estudiante/ResultadoQuizPage.tsx:15-19 | the "Perfecto" message shows exactly when 200 times the right answers reach 199 times the total, because of rounding |
| ResultadoQuiz.PerfectoWithAMistake | neurolearn-frontend/src/pages/estudiante/ResultadoQuizPage.tsx:15-19 | 199 right out of 200 already shows "Perfecto" |
| ResultadoQuiz.ResultadoOfPlay | neurolearn-frontend/src/pages/estudiante/ResultadoQuizPage.tsx:9-60 | the result screen of a play shows a percentage from 0 to 100, an all-right play reads "Perfecto" with 10 points, and "Volver" leads to the course when the quiz has one |
| IngresarQuiz.PuntajeTexto | neurolearn-frontend/src/pages/estudiante/IngresarQuizPage.tsx:36-37 | the score sentence, or nothing without a score |
| IngresarQuiz.Entrar | neurolearn-frontend/src/pages/estudiante/IngresarQuizPage.tsx:15-53 | a blank code is refused; a code not found gives its message; a completed quiz is refused, quoting the score; the page enters the quiz exactly when the trimmed code is found and not completed |
| IngresarQuiz.TrimCode | neurolearn-frontend/src/pages/estudiante/IngresarQuizPage.tsx:19 | a six-digit code is its own trim and not blank |
| IngresarQuiz.BuscarPublished | neurolearn-frontend/src/pages/estudiante/IngresarQuizPage.tsx:19-29 | with the server's lookup, the code of a published quiz finds that quiz |
| IngresarQuiz.EntrarPending | neurolearn-frontend/src/pages/estudiante/IngresarQuizPage.tsx:15-46 | entering the code of a published quiz the student has not completed leads into the quiz |
| IngresarQuiz.EntrarAfterSubmit | neurolearn-frontend/src/pages/estudiante/IngresarQuizPage.tsx:32-42 | after the student's submission is stored, entering the code again is refused with the stored score |
| IngresarQuiz.Formulario.constructor | neurolearn-frontend/src/pages/estudiante/IngresarQuizPage.tsx:10-12 | an empty input, no error, not loading |
| IngresarQuiz.Formulario.Escribir | neurolearn-frontend/src/pages/estudiante/IngresarQuizPage.tsx:65-69 | the input keeps at most its first six characters |
| IngresarQuiz.Formulario.Enviar | neurolearn-frontend/src/pages/estudiante/IngresarQuizPage.tsx:15-53 | the error is cleared and set to the refusal, or the page moves to the quiz; loading ends either way |
| FrontCommon.RoundRatio | neurolearn-frontend/src/pages/estudiante/QuizEstudiantePage.tsx:90-92 | `Math.round(num / den * scale)` on the exact rational; its laws are `RoundRatioLaws` and `RoundRatioMonotone` |
| FrontCommon.RoundRatioLaws | neurolearn-frontend/src/pages/estudiante/QuizEstudiantePage.tsx:90-92 | `Math.round(num / den * scale)` as exact round-half-up: within half a unit of the true ratio, from 0 to the scale for a proportion, 0 for none and the scale for all |
| FrontCommon.RoundRatioMonotone | neurolearn-frontend/src/pages/estudiante/MiCursoDetallePage.tsx:39-46 | a larger numerator never rounds to less |
| FrontCommon.Volver | neurolearn-frontend/src/pages/estudiante/ResultadoQuizPage.tsx:57-65 | "Volver" leads to the student's course page exactly when there is a course id, and to the dashboard otherwise |
| FrontCommon.ErrorMessage | neurolearn-frontend/src/pages/estudiante/EstudianteDashboard.tsx:72-76 | `response?.data?.message \|\| fallback`: the server's message when it is non-empty, otherwise the fallback; never empty when the fallback is not |
| FrontCommon.Termino | neurolearn-frontend/src/pages/docente/CursosDocentePage.tsx:64-65 | the search term is the lower-cased, trimmed search text; it is empty exactly when the text is blank |
| FrontCommon.Buscar | neurolearn-frontend/src/pages/docente/CursosDocentePage.tsx:63-73 | the pages' search filter: a blank search shows the whole list; otherwise only elements that match the term, every matching element is shown, and the list never grows |
| FrontCommon.BuscarIdempotent | neurolearn-frontend/src/pages/admin/CursosAdminPage.tsx:46-56 | searching the results again with the same text changes nothing |
| FrontCommon.IncluyeVacio | neurolearn-frontend/src/pages/admin/UsuariosAdminPage.tsx:176-179 | every field contains the empty term |
| FrontCommon.AlternarCurso | neurolearn-frontend/src/pages/docente/CursosDocentePage.tsx:144-145 | the toggle target is a valid course state, and Activo exactly when the course was not Activo |
| FrontCommon.AlternarCursoInvolution | neurolearn-frontend/src/pages/admin/CursosAdminPage.tsx:124-126 | toggling twice restores a valid state |
| MiCurso.QuizzesOrEmpty | neurolearn-frontend/src/pages/estudiante/MiCursoDetallePage.tsx:64-68 | `data.quizzes ?? []`: undefined or null gives no quizzes, an array gives its items, anything else is not a list |
| MiCurso.JsLength | neurolearn-frontend/src/pages/estudiante/MiCursoDetallePage.tsx:39-46 | `quizzes.length`: the length of a string or list, an object's `length` member, undefined for null, booleans and numbers |
| MiCurso.Normalizar | neurolearn-frontend/src/pages/estudiante/MiCursoDetallePage.tsx:58-72 | non-objects fail; the `{ curso, quizzes }` shape gives its two parts; any other object is the course itself; missing or null quizzes load as none, a list as its items, a value of `length` 0 as none; any other value is a render error |
| MiCurso.NormalizarLengthCero | neurolearn-frontend/src/pages/estudiante/MiCursoDetallePage.tsx:197-201 | a `quizzes` of "" or `{ length: 0 }` loads an empty course at 0 %; a non-empty string or a number is a render error |
| MiCurso.NormalizarShapes | neurolearn-frontend/src/pages/estudiante/MiCursoDetallePage.tsx:58-72 | the new shape, the old shape with quizzes, and a bare course each load as intended |
| MiCurso.Progreso | neurolearn-frontend/src/pages/estudiante/MiCursoDetallePage.tsx:39-46 | the progress is from 0 to 100, and 0 without quizzes |
| MiCurso.ProgresoExtremes | neurolearn-frontend/src/pages/estudiante/MiCursoDetallePage.tsx:39-46 | all quizzes completed give 100; none completed gives 0 |
| MiCurso.ProgresoMonotone | neurolearn-frontend/src/pages/estudiante/MiCursoDetallePage.tsx:39-46 | completing one more quiz never lowers the progress |
| MiCurso.InsigniaTexto | neurolearn-frontend/src/pages/estudiante/MiCursoDetallePage.tsx:211-212 | "✔ Quiz completado", followed by " · n/10" when there is a score |
| MiCurso.AccionQuiz | neurolearn-frontend/src/pages/estudiante/MiCursoDetallePage.tsx:208-225 | "Empezar quiz" exactly for a published quiz not completed, leading to that quiz; the badge exactly for a published completed quiz; "Aún no publicado" exactly for an unpublished quiz |
| MiCurso.SalirCurso | neurolearn-frontend/src/pages/estudiante/MiCursoDetallePage.tsx:90-107 | no course or no confirmation does nothing; a successful leave goes to the dashboard; a failure shows the fixed message |
| MiCurso.SalirCursoWithServer | neurolearn-frontend/src/pages/estudiante/MiCursoDetallePage.tsx:90-107 | with the server's leave route, an enrolled student of a valid course goes back to the dashboard, and a student not enrolled sees the message |
| EstudianteDashboard.ColumnsPartition | neurolearn-frontend/src/pages/estudiante/EstudianteDashboard.tsx:87-91 | the enrolled and available columns split the list: each course is in exactly one of them, and the two counters add up to the number of courses |
| EstudianteDashboard.NombreMostrado | neurolearn-frontend/src/pages/estudiante/EstudianteDashboard.tsx:48-53 | the user's non-empty name, else their non-empty email, else "Estudiante"; never empty |
| EstudianteDashboard.UnirseDeshabilitado | neurolearn-frontend/src/pages/estudiante/EstudianteDashboard.tsx:249-252 | the join button is disabled while that course's join is in flight and for a course that is not Activo; `EnabledJoinIsAvailable` states what this guarantees |
| EstudianteDashboard.EnabledJoinIsAvailable | neurolearn-frontend/src/pages/estudiante/EstudianteDashboard.tsx:248-252 | a join the page lets the student press is never refused by the server as unavailable |
| EstudianteDashboard.Respuesta | neurolearn-frontend/src/services/studentCourseService.ts:42-49 | the join answer as the page reads it: the saved course marked enrolled, or the error |
| EstudianteDashboard.JoinMovesCourse | neurolearn-frontend/src/pages/estudiante/EstudianteDashboard.tsx:58-91 | a successful join of an available course moves it from the available column to the enrolled one, with the student among its students |
| EstudianteDashboard.Panel.constructor | neurolearn-frontend/src/pages/estudiante/EstudianteDashboard.tsx:19-24 | the loaded courses and nothing in flight |
| EstudianteDashboard.Panel.EmpezarUnirse | neurolearn-frontend/src/pages/estudiante/EstudianteDashboard.tsx:60 | that course's join is in flight |
| EstudianteDashboard.Panel.TerminarUnirse | neurolearn-frontend/src/pages/estudiante/EstudianteDashboard.tsx:61-81 | on success the course with the requested id is replaced by the answer and the success alert is shown; on failure the server's message or the fixed one; nothing in flight afterwards |
| CursoDocenteDetalle.TituloEnviado | neurolearn-frontend/src/pages/docente/CursoDocenteDetallePage.tsx:91-100 | nothing is sent (the page alerts) exactly when the title is blank; otherwise the trimmed title, which is non-empty |
| CursoDocenteDetalle.TituloEnviadoStable | neurolearn-frontend/src/pages/docente/CursoDocenteDetallePage.tsx:139-148 | a title the page sends is sent unchanged if sent again |
| CursoDocenteDetalle.Incrementado | neurolearn-frontend/src/pages/docente/CursoDocenteDetallePage.tsx:105-107 | the local counter goes up by one and nothing else changes; `CreateThenDelete` shows `Decrementado` undoes it |
| CursoDocenteDetalle.Decrementado | neurolearn-frontend/src/pages/docente/CursoDocenteDetallePage.tsx:171-175 | `Math.max((totalQuizzes ?? 1) - 1, 0)`: one less, never below 0, nothing else changes |
| CursoDocenteDetalle.CreateThenDelete | neurolearn-frontend/src/pages/docente/CursoDocenteDetallePage.tsx:89-181 | creating a quiz and deleting it restores the list and, from a non-negative counter, the course |
| CursoDocenteDetalle.PublicarOfrecido | neurolearn-frontend/src/pages/docente/CursoDocenteDetallePage.tsx:803 | the publish button is offered for drafts only; see `NewQuizIsDraft` and `PublishedShowsCode` |
| CursoDocenteDetalle.CodigoVisible | neurolearn-frontend/src/pages/docente/CursoDocenteDetallePage.tsx:795-799 | the code is shown for a published quiz with a non-empty code; see `NewQuizIsDraft` and `PublishedShowsCode` |
| CursoDocenteDetalle.NewQuizIsDraft | neurolearn-frontend/src/pages/docente/CursoDocenteDetallePage.tsx:804 | a quiz the server has just created offers publishing and shows no code |
| CursoDocenteDetalle.PublishedShowsCode | neurolearn-frontend/src/pages/docente/CursoDocenteDetallePage.tsx:795-804 | after the server publishes a quiz, the page shows its code and no longer offers publishing; the two never show together |
| CursoDocenteDetalle.Detalle.constructor | neurolearn-frontend/src/pages/docente/CursoDocenteDetallePage.tsx:24-42 | the loaded course and quizzes, empty inputs, nothing being edited or published |
| CursoDocenteDetalle.Detalle.Crear | neurolearn-frontend/src/pages/docente/CursoDocenteDetallePage.tsx:89-117 | without a course nothing happens; a blank title alerts; a created quiz goes to the front, the counter goes up and the input is cleared; a failure alerts |
| CursoDocenteDetalle.Detalle.AbrirEditar | neurolearn-frontend/src/pages/docente/CursoDocenteDetallePage.tsx:126-129 | the rename dialog opens on the quiz with its title |
| CursoDocenteDetalle.Detalle.Guardar | neurolearn-frontend/src/pages/docente/CursoDocenteDetallePage.tsx:137-159 | a blank title alerts; the renamed quiz replaces the quiz with its id and the dialog closes; a failure alerts and keeps the dialog |
| CursoDocenteDetalle.Detalle.Eliminar | neurolearn-frontend/src/pages/docente/CursoDocenteDetallePage.tsx:162-181 | without confirmation nothing changes; a deleted quiz's id leaves the list and the counter goes down, never below zero; a failure alerts |
| CursoDocenteDetalle.Detalle.EmpezarPublicar | neurolearn-frontend/src/pages/docente/CursoDocenteDetallePage.tsx:186 | that quiz is being published |
| CursoDocenteDetalle.Detalle.TerminarPublicar | neurolearn-frontend/src/pages/docente/CursoDocenteDetallePage.tsx:187-197 | the published quiz replaces the quiz with its id, or the failure alerts; nothing is being published afterwards |
| CursoDocenteDetalle.PublishReplacesOne | neurolearn-frontend/src/pages/docente/CursoDocenteDetallePage.tsx:184-197 | in a list without repeated ids, the server's published copy replaces only that entry, which then shows its code and no publish button |
| CursosDocente.Filtrados | neurolearn-frontend/src/pages/docente/CursosDocentePage.tsx:63-73 | `FrontCommon.Buscar` with the page's test: the lower-cased name or description contains the term |
| CursosDocente.FiltradosFindsDescription | neurolearn-frontend/src/pages/docente/CursosDocentePage.tsx:67-73 | a course whose lower-cased description is the term is found, even when its name does not match |
| CursosDocente.PlanCrear | neurolearn-frontend/src/pages/docente/CursosDocentePage.tsx:77-88 | nothing is sent (the page alerts) exactly when the name is blank; otherwise the trimmed, non-empty name and the trimmed description, left out when blank |
| CursosDocente.PlanCrearWithServer | neurolearn-frontend/src/pages/docente/CursosDocentePage.tsx:85-88 | the server turns what the page sends into an Activo course of the caller with exactly that name and description, no students and zero counters |
| CursosDocente.PlanEditar | neurolearn-frontend/src/pages/docente/CursosDocentePage.tsx:115-128 | nothing is sent exactly when the name is blank; otherwise the trimmed name, the trimmed description and the chosen state |
| CursosDocente.PlanEditarKeepsName | neurolearn-frontend/src/pages/docente/CursosDocentePage.tsx:124-128 | since the update route does not validate, the page's check is what keeps an edited course's name non-empty; the course stays the caller's |
| CursosDocente.Lista.constructor | neurolearn-frontend/src/pages/docente/CursosDocentePage.tsx:22-37 | the loaded courses, empty inputs, nothing being edited, state input Activo |
| CursosDocente.Lista.Crear | neurolearn-frontend/src/pages/docente/CursosDocentePage.tsx:77-99 | a blank name alerts; a created course goes to the front of the list and both inputs are cleared; a failure alerts and keeps the inputs |
| CursosDocente.Lista.AbrirEditar | neurolearn-frontend/src/pages/docente/CursosDocentePage.tsx:102-108 | the dialog opens on the course with its name, description (empty when missing) and state |
| CursosDocente.Lista.GuardarEdicion | neurolearn-frontend/src/pages/docente/CursosDocentePage.tsx:115-140 | without a course being edited nothing happens; a blank name alerts; the updated course replaces the course with its id and the dialog closes; a failure alerts and keeps the dialog |
| CursosDocente.Lista.Alternar | neurolearn-frontend/src/pages/docente/CursosDocentePage.tsx:143-160 | the updated course replaces the course with its id, or the failure alerts and the list is kept |
| CursosDocente.Lista.Eliminar | neurolearn-frontend/src/pages/docente/CursosDocentePage.tsx:163-188 | without confirmation nothing changes; a deleted course's id leaves the list; a refusal shows the server's message, or "No se pudo eliminar el curso." |
| CursosDocente.AlternarWithServer | neurolearn-frontend/src/pages/docente/CursosDocentePage.tsx:143-150 | the server's state route flips an owned course's state, and toggling twice restores the course |
| CursosDocente.EliminarShowsReason | neurolearn-frontend/src/pages/docente/CursosDocentePage.tsx:179-186 | a delete refused because students are enrolled shows the server's explanation |
| CursosAdmin.Filtrados | neurolearn-frontend/src/pages/admin/CursosAdminPage.tsx:46-56 | `FrontCommon.Buscar` with the page's test: the lower-cased name or teacher name contains the term |
| CursosAdmin.FiltradosLaws | neurolearn-frontend/src/pages/admin/CursosAdminPage.tsx:46-56 | searching the results again changes nothing, and a course whose lower-cased name is the term is found |
| CursosAdmin.PlanEditar | neurolearn-frontend/src/pages/admin/CursosAdminPage.tsx:77-91 | nothing is sent exactly when the name is blank; otherwise the trimmed name and description, the trimmed teacher name or "Sin asignar" when blank, and the chosen state |
| CursosAdmin.PlanEditarWithServer | neurolearn-frontend/src/pages/admin/CursosAdminPage.tsx:86-91 | the admin update route writes the edit so that the course keeps a non-empty name and teacher, its id, its students and its counters |
| CursosAdmin.Lista.constructor | neurolearn-frontend/src/pages/admin/CursosAdminPage.tsx:15-28 | the loaded courses, empty inputs, nothing being edited, state input Activo |
| CursosAdmin.Lista.AbrirEditar | neurolearn-frontend/src/pages/admin/CursosAdminPage.tsx:63-70 | the dialog opens on the course with its fields, a missing description as empty |
| CursosAdmin.Lista.GuardarEdicion | neurolearn-frontend/src/pages/admin/CursosAdminPage.tsx:77-102 | without a course being edited nothing happens; a blank name alerts; the updated course replaces the course with its id and the dialog closes; a failure alerts |
| CursosAdmin.Lista.Eliminar | neurolearn-frontend/src/pages/admin/CursosAdminPage.tsx:106-121 | without confirmation nothing changes; a deleted course's id leaves the list; a failure shows the fixed message |
| CursosAdmin.Lista.Alternar | neurolearn-frontend/src/pages/admin/CursosAdminPage.tsx:124-136 | the updated course replaces the course with its id, or the failure alerts and the list is kept |
| CursosAdmin.AlternarWithServer | neurolearn-frontend/src/pages/admin/CursosAdminPage.tsx:124-130 | the admin state route flips the course's state, and toggling twice restores the course |
| UsuariosAdmin.Visibles | neurolearn-frontend/src/pages/admin/UsuariosAdminPage.tsx:168-182 | exactly the users whose role matches the selector and whose name or email contains the term (any user with an empty term) are shown |
| UsuariosAdmin.VisiblesUnfiltered | neurolearn-frontend/src/pages/admin/UsuariosAdminPage.tsx:168-182 | with every role and a blank search everyone is shown; with a blank search a user is shown exactly when their role matches |
| UsuariosAdmin.AlternarEstado | neurolearn-frontend/src/pages/admin/UsuariosAdminPage.tsx:59 | the toggle always changes the status |
| UsuariosAdmin.AlternarWithServer | neurolearn-frontend/src/pages/admin/UsuariosAdminPage.tsx:57-63 | the status the page sends is never refused as invalid; the server flips the status, keeps the role, and toggling twice restores the user |
| UsuariosAdmin.CamposCompletos | neurolearn-frontend/src/pages/admin/UsuariosAdminPage.tsx:128-131 | the create handler's check: all three fields non-empty as typed, nothing trimmed; `CrearWithServer` states what it guarantees |
| UsuariosAdmin.CrearWithServer | neurolearn-frontend/src/pages/admin/UsuariosAdminPage.tsx:127-141 | a create the page sends is never refused for missing fields; with a free email it creates exactly the typed user with the chosen role, Activo |
| UsuariosAdmin.Panel.constructor | neurolearn-frontend/src/pages/admin/UsuariosAdminPage.tsx:16-38 | the loaded users, no dialog open, empty inputs, role ESTUDIANTE |
| UsuariosAdmin.Panel.Alternar | neurolearn-frontend/src/pages/admin/UsuariosAdminPage.tsx:57-68 | the answer replaces the user with the requested id, or the failure alerts and the list is kept |
| UsuariosAdmin.Panel.Eliminar | neurolearn-frontend/src/pages/admin/UsuariosAdminPage.tsx:70-79 | without confirmation nothing changes; a deleted user's id leaves the list; a failure alerts |
| UsuariosAdmin.Panel.AbrirRol | neurolearn-frontend/src/pages/admin/UsuariosAdminPage.tsx:82-86 | the role dialog opens on the user with their role selected |
| UsuariosAdmin.Panel.GuardarRol | neurolearn-frontend/src/pages/admin/UsuariosAdminPage.tsx:93-110 | without a selected user nothing happens; the answer replaces the user with its id and the dialog closes; a failure alerts and keeps the dialog |
| UsuariosAdmin.Panel.AbrirNuevo | neurolearn-frontend/src/pages/admin/UsuariosAdminPage.tsx:114-121 | the new-user dialog opens with empty inputs, role ESTUDIANTE and no error |
| UsuariosAdmin.Panel.Crear | neurolearn-frontend/src/pages/admin/UsuariosAdminPage.tsx:127-165 | a missing field is reported in the dialog; a created user goes to the front of the list and the dialog closes; a refusal shows the server's message, or the fixed one |
| UsuariosAdmin.CrearShowsReason | neurolearn-frontend/src/pages/admin/UsuariosAdminPage.tsx:150-160 | a create refused because the email is taken shows the server's own message |
| Seqs.Filter | neurolearn-frontend/src/pages/docente/CursosDocentePage.tsx:67-73 | `filter` keeps exactly the elements satisfying the predicate, and never more than the list had |
| Seqs.FilterConcat | neurolearn-frontend/src/pages/docente/CursosDocentePage.tsx:67-73 | filtering a concatenation filters each part |
| Seqs.FilterAll | neurolearn-frontend/src/pages/docente/CursosDocentePage.tsx:67-73 | a predicate every element satisfies keeps the list as it is |
| Seqs.FilterNone | neurolearn-frontend/src/pages/docente/CursosDocentePage.tsx:67-73 | a predicate no element satisfies leaves nothing |
| Seqs.FilterPartition | neurolearn-frontend/src/pages/estudiante/EstudianteDashboard.tsx:87-91 | filtering by a predicate and by its negation splits the list: the lengths add up and the elements are exactly the list's |
| Seqs.FilterCountUpdate | neurolearn-frontend/src/pages/estudiante/EstudianteDashboard.tsx:64-66 | overwriting an element by one the predicate judges the same way keeps the filtered count |
| Seqs.FilterCountFlip | neurolearn-frontend/src/pages/estudiante/EstudianteDashboard.tsx:64-66 | overwriting an element the predicate rejects by one it accepts adds exactly one to the filtered count |
| Seqs.RemoveAt | neurolearn-frontend/src/pages/docente/QuizEditarPage.tsx:101-103 | `filter((_, i) => i !== k)` drops exactly the element at k and keeps the others in order; an index outside the list changes nothing |
| Seqs.FilterDropsOne | neurolearn-frontend/src/pages/docente/QuizEditarPage.tsx:101-103 | a filter that rejects exactly one element is removal at its position |
| Seqs.ReplaceByKey | neurolearn-frontend/src/pages/docente/CursosDocentePage.tsx:130-132 | the `map` that swaps in the server's copy by id; with unique ids it replaces exactly that one element (`ByUniqueKey`) |
| Seqs.ByUniqueKey | neurolearn-frontend/src/pages/estudiante/EstudianteDashboard.tsx:64-66 | with unique keys, replacing or removing by an element's key touches only that element |
| Seqs.RemoveByKey | neurolearn-frontend/src/pages/docente/CursosDocentePage.tsx:175 | the `filter` by id keeps exactly the elements with another key |
| Seqs.RemoveByKeyAbsent | neurolearn-frontend/src/pages/docente/CursoDocenteDetallePage.tsx:169 | removing a key no element has changes nothing; removing a key only a prepended element has drops just that element |
| Seqs.JsSliceBound | src/utils/pptGenerator.ts:107 | the end index `slice` uses, never past the length; what slicing with it gives is `JsSlice` |
| Seqs.JsSlice | src/utils/pptGenerator.ts:203 | `slice(0, n)` is a prefix, of length n when n is non-negative and within the list |
| Text.TrimStart | neurolearn-frontend/src/pages/docente/CursoDocenteDetallePage.tsx:91 | leading whitespace is removed: the result is a suffix of the input that does not start with whitespace |
| Text.TrimStartCuts | neurolearn-frontend/src/pages/docente/CursoDocenteDetallePage.tsx:91 | every character cut from the front is whitespace |
| Text.TrimEnd | neurolearn-frontend/src/pages/docente/CursoDocenteDetallePage.tsx:91 | the same at the end: a prefix that does not end with whitespace |
| Text.TrimEndCuts | neurolearn-frontend/src/pages/docente/CursoDocenteDetallePage.tsx:91 | every character cut from the end is whitespace |
| Text.Trim | neurolearn-frontend/src/pages/docente/CursoDocenteDetallePage.tsx:91 | `s.trim()` as `TrimEnd` after `TrimStart`; its laws are `TrimIsSlice`, `BlankIffAllWhitespace` and `TrimIdempotent` |
| Text.TrimIsSlice | neurolearn-frontend/src/pages/docente/CursoDocenteDetallePage.tsx:91 | `trim` returns a contiguous piece of its input |
| Text.BlankIffAllWhitespace | neurolearn-frontend/src/pages/docente/CursoDocenteDetallePage.tsx:91 | `!s.trim()` holds exactly when every character is whitespace |
| Text.TrimIdempotent | neurolearn-frontend/src/pages/docente/CursoDocenteDetallePage.tsx:99 | trimming twice is trimming once |
| Text.LowerChar | neurolearn-frontend/src/pages/docente/CursosDocentePage.tsx:64 | `toLowerCase` maps capitals to small letters and leaves other characters alone |
| Text.Lower | neurolearn-frontend/src/pages/docente/CursosDocentePage.tsx:64 | the lower-cased text has the same length, maps character by character, and holds no ASCII capital; lower-casing again changes nothing (`LowerIdempotent`) |
| Text.LowerIdempotent | neurolearn-frontend/src/pages/docente/CursosDocentePage.tsx:64 | lower-casing twice is lower-casing once |
| Text.ContainsIffOccurs | neurolearn-frontend/src/pages/docente/CursosDocentePage.tsx:70 | `includes` holds exactly when the term occurs at some position |
| Text.ContainsEmpty | neurolearn-frontend/src/pages/docente/CursosDocentePage.tsx:70 | every text includes the empty term |
| Text.ContainsSlice | neurolearn-frontend/src/pages/docente/CursosDocentePage.tsx:70 | what a piece of a text includes, the text includes |
| Text.IndexOf | src/utils/pptGenerator.ts:70 | `indexOf` is the first position of the character, or -1 exactly when it does not occur |
| Text.LastIndexOf | src/utils/pptGenerator.ts:71 | `lastIndexOf` is the last position of the character, or -1 exactly when it does not occur |
| Text.Split | src/middleware/authMiddleware.ts:30 | `split` gives at least one piece, none containing the separator |
| Text.JoinSplit | src/middleware/authMiddleware.ts:30 | joining the pieces of a split rebuilds the text |
| Text.SplitJoin | src/middleware/authMiddleware.ts:30 | splitting a join of separator-free pieces gives the pieces back |
| Text.SplitHeading | src/controllers/pptController.ts:79-85 | a separator-free first line, a separator and separator-free lines split back into the first line and the lines, or "" when there are none |
| Text.NatToString | src/utils/generarCodigoQuiz.ts:11 | `toString` of a non-negative integer is decimal digits without a leading zero |
| Text.NatToStringRoundTrip | src/utils/generarCodigoQuiz.ts:11 | reading the decimal text back gives the number |
| Text.NatToStringInjective | src/utils/generarCodigoQuiz.ts:11 | distinct numbers print differently, so distinct candidates are distinct codes |
| Text.NatToStringStep | src/utils/generarCodigoQuiz.ts:11 | each factor of ten adds one digit |
| Text.SixDigitText | src/utils/generarCodigoQuiz.ts:11 | a number in [100000, 999999] prints as exactly six characters |
| Text.PadStart2 | src/utils/pptGenerator.ts:176 | `padStart(2, "0")` yields at least two characters and leaves longer text alone |
| Text.PadStart2Digits | src/utils/pptGenerator.ts:176 | for 1..99 the padded text is two digits that read back as the number |
| Text.RemoveAll | src/routes/quizRoutes.ts:157-158 | a global `replace` by "" never lengthens the text |
| Text.RemoveFenceLeadingTick | src/routes/quizRoutes.ts:158 | after removing every fence, a leading backtick was already leading in the input |
| Text.RemoveFenceLeadingTicks | src/routes/quizRoutes.ts:158 | likewise for two leading backticks |
| Text.RemoveFenceComplete | src/routes/quizRoutes.ts:158 | removing every "```" left to right leaves no "```" |

## Left out

Effects and libraries:
- The database driver is replaced by maps and sequences. ObjectId casts and their CastError paths, timestamps, `populate`, and the sorts by `nombre` or date in the list routes are not modelled; list results are taken in id order.
- Concurrency is not modelled. Each route runs to completion on its own, so the races between a read and the write that depends on it in code issuance and in submit do not arise.
- OpenAI calls and `JSON.parse` are parameters: the raw reply is an input and parsing is a partial function. The prompt texts and the input truncation inside the prompts are not modelled.
- bcrypt and JWT are parameters (`hash`, `compare`, `sign`, `verify`). Token expiry is not modelled.
- PptxGenJS rendering is not modelled: coordinates, colours, shapes and `write`. Only the text each slide receives is modelled.
- `console.log`/`console.error`, `alert` as a dialog (it becomes the page's `alerta` field), navigation, `setTimeout` delays, loading flags and React effect order are not modelled. The 1.2-second pause after an answer is folded into one step.
- Failed requests with no response (network errors) are not modelled. A failed answer always carries the server's message, possibly empty.
- Pages whose state is loaded by effects start from the loaded values (the constructors' parameters). The loading and error screens are not modelled.

JavaScript semantics:
- `Text.Lower` folds only ASCII and Latin-1 capitals; the rest of Unicode case mapping is not modelled.
- `Text.Trim` uses the ECMAScript whitespace set of the Basic Multilingual Plane. Strings are sequences of characters, so lengths are not UTF-16 code-unit counts for characters outside that plane.
- `Json.StringToNumber` reads integers only; fractions, exponents, `Infinity` and hexadecimal literals are not modelled. JSON numbers are integers.
- `Math.round` on floats is modelled as exact round-half-up of the rational (`FrontCommon.RoundRatio`), so floating-point effects are abstracted away.
- Request bodies are modelled as optional strings, except the login email, which is a plain string. Non-string values in string fields (numbers, arrays) are not modelled.

Routes and handlers:
- The second `/:quizId/estado-estudiante` handler (src/routes/quizRoutes.ts:250) is never reached, because Express serves the first one; only the first is modelled.
- The admin list and detail routes (GET on courses, quizzes and users), GET `/curso/:cursoId` for quizzes and `/dashboard/stats` are not modelled. They are single queries with no logic beyond their filter.
- `QuizLogic.PublishIdempotent`: requires the drawn code to be non-empty. An empty code is falsy, so a quiz holding one would get a fresh code; the generator only produces six-digit codes.
- `AccessCode.GenerarCodigo`: requires that some draw in the given sequence is free. The source loops until a draw is free, and its termination depends on the random source.
- `AuthController.Login` and `Backend.Store.IniciarSesion`: the email is a plain string, so an absent email, and what `findOne` does with an undefined filter, is not modelled. An absent password is modelled (500).
- `StudentCourseRoutes.Activos`: lists the courses in increasing id order. The route sorts them by `nombre`, and that sort is not modelled.
- `PptGenerator.CuerpoLines`: requires bullets without line breaks. `Limpiar` keeps line feeds, so such a bullet spans several lines of the body.
- `Backend.Store.Valid`: does not include `CounterAgrees`. The admin PUT and POST write `totalEstudiantes` as sent, so the counter can disagree with the enrolment list; join and leave re-establish it (`CourseRoutes.UnirseEnrols`, `CourseRoutes.SalirRemoves`).

Frontend:
- `QuizEditor.ActualizarOpcion`, `QuizEditor.ActualizarOpcionIdempotent` and `QuizEditor.ActualizarOpcionShown`: require the option slot to be below 4, because the page renders exactly four option inputs.
- `QuizPlay.Partida.constructor`: requires at least one question. With none, `quiz.preguntas[0]` is undefined and rendering `preguntaActual.enunciado` throws a TypeError (QuizEstudiantePage.tsx:161, 198).
- A quiz without a course makes the play page send the course id "". The server then answers 400, which the page ignores before showing the result.
- `ResultadoQuiz.Mensaje` follows the code's tiers on the rounded percentage, so 199 correct out of 200 already shows the top message (`ResultadoQuiz.PerfectoWithAMistake`).
- SubirDocumentoPage and the document upload routes are file I/O and parser libraries and are not modelled.
