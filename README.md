# ThumbnailGenerator in Dafny

A verified model of the core of ThumbnailGenerator, a WPF desktop tool. The user picks a
source folder, and the tool lists the folder's static images ordered by write time. The
user then picks an output folder and a maximum width, and the tool writes one thumbnail
per listed image. The model covers four pieces:

- `Thumbnails` (`thumbnails.dfy`) covers ThumbnailTool and ImageExtensions.
  - The dimension rule of `ResizeAsync`.
  - When the `Bitmap` constructor throws.
  - The order in which the `GenerateAsync`/`GenerateAndSaveAsync` overloads resize,
    dispose and save images.
  - An image is its dimensions plus the image it was drawn from; pixels are not modelled.
- `Counters` (`counters.dfy`) covers `ThreadCounter`. It is a class whose `count` is a
  32-bit C# `int` that only `Increase`, `Reduce` and `Reset` change. The lazily created
  static instance is held by a small holder class, because Dafny has no static mutable
  fields.
- `Items` (`items.dfy`) covers `ImageItem`, a mutable file-plus-state object, and its
  three-valued `State`.
- `Window` (`window.dfy`) covers `MainWindow`.
  - `IsStaticImage` over an ordinal `String.Contains`.
  - The item list of `btnSrcDir_Click`: a Where, then a stable OrderBy on write time, then a
    Select creating fresh Pending items.
  - The two text-box guards of `btnStart_Click`.
  - Its per-item loop, run sequentially in list order.
- `Wrappers` (`wrappers.dfy`) holds the `Option` and `Result` types.

The file system is a map from a path to the size of the image stored there. A path that
is absent from the map is one that `Image.FromFile` cannot decode.

### Behaviour the code has, and does not have

- An item has only the states `Pending`, `Processing` and `Solved`
  (ThumbnailGenerator/ImageItem.cs:41-44). There is no failure state.
- `ThreadNum` is a display counter. Nothing compares it to a limit, so no concurrency
  bound is enforced.
- The max-width text box is only rejected when it is null or whitespace. Nothing checks
  that `ThumbnailMaxWidth` is positive. For a non-positive width, `ResizeAsync` throws
  inside `new Bitmap`.
- Every item's task is started (MainWindow.xaml.cs:137) before `Task.WhenAll` awaits them
  (MainWindow.xaml.cs:170), so one failing item does not stop the others. `Task.WhenAll`
  then rethrows, and the handler stops before it sets the progress bar to 100 and before
  it re-enables the buttons. In the model:
  - the loop visits every item;
  - a failing item stays `Processing`, and its `ThreadNum--` never happens;
  - the run ends `Faulted`, with progress only advanced by the items that were solved and
    every button left disabled.

## Model

| member | source | states |
|---|---|---|
| Thumbnails.ThumbnailSize | ThumbnailGenerator/ThumbnailTool.cs:53-59 | The width is min(width, maxWidth). An image no wider than maxWidth keeps its exact size, so there is no upscaling. A downscaled height h satisfies h*width <= maxWidth*height < (h+1)*width, and never exceeds the source height |
| Thumbnails.ThumbnailHeightUnique | ThumbnailGenerator/ThumbnailTool.cs:58 | Any height satisfying the floor bounds is the rule's height, so the bounds determine it |
| Thumbnails.ThumbnailHeightIsTruncatedRatio | ThumbnailGenerator/ThumbnailTool.cs:58 | The integer height equals the truncation of (maxWidth / width) * height computed over exact reals |
| Thumbnails.ThumbnailSizeIdempotent | ThumbnailGenerator/ThumbnailTool.cs:53-59 | Resizing a thumbnail again with the same maxWidth leaves its size unchanged |
| Thumbnails.ThumbnailSizeExamples | ThumbnailGenerator/ThumbnailTool.cs:53-59 | 4000x3000 with maxWidth 1000 gives 1000x750; 80x60 with maxWidth 120 stays 80x60 |
| Thumbnails.ResizeImage | ThumbnailGenerator/ThumbnailTool.cs:51-71 | It throws InvalidParameter exactly when width > maxWidth and either maxWidth <= 0 or the truncated height is 0. Otherwise it returns a new Bitmap drawn from the input, with the rule's size |
| Thumbnails.GenerateFromFile | ThumbnailGenerator/ThumbnailTool.cs:25-29 | A file that does not load throws before any image step is taken. A successful call returns a bitmap drawn from the decoded file. It never uses a disposed image |
| Thumbnails.GenerateAndSaveFile | ThumbnailGenerator/ThumbnailTool.cs:30-34 | It returns normally exactly when GenerateAsync does, and then its last step saves GenerateAsync's result to saveFileName. On a throw it takes only GenerateAsync's steps. GenerateAndSaveFileSavesThumbnail gives the full trace |
| Thumbnails.GenerateAndSaveImageAsWritten | ThumbnailGenerator/ThumbnailTool.cs:42-46 | As written, it returns normally exactly when the resize does, and its last step then saves the input img. GenerateAndSaveImageAsWrittenSavesDisposed shows that img was disposed by then |
| Thumbnails.GenerateAndSaveImage | ThumbnailGenerator/ThumbnailTool.cs:42-46 | Corrected, it returns normally exactly when the resize does, and its last step then saves the resized thumbnail |
| Thumbnails.GenerateFromImage | ThumbnailGenerator/ThumbnailTool.cs:13-18 | It resizes first and only then disposes the source, returning a new bitmap that is not the source. When resizing throws, the source is not disposed. It never uses a disposed image |
| Thumbnails.GenerateAndSaveFileSavesThumbnail | ThumbnailGenerator/ThumbnailTool.cs:25-34 | The path overload returns normally exactly when the file decodes and the bitmap dimensions are valid. It then takes exactly three steps: resize the source, dispose it, then save a thumbnail of the rule's size to saveFileName. It never uses a disposed image |
| Thumbnails.GenerateAndSaveImageAsWrittenSavesDisposed | ThumbnailGenerator/ThumbnailTool.cs:42-46 | As written, every successful call of the Image overload takes exactly three steps: resize img, dispose img, then Save img to saveFileName. So a disposed image is used again. The thumbnail it generated appears in no later step: it is never saved or disposed |
| Thumbnails.GenerateAndSaveImageAsWrittenExample | ThumbnailGenerator/ThumbnailTool.cs:42-46 | As written, a 4000x3000 image with maxWidth 1000 is disposed and then passed to Save, and its 1000x750 thumbnail is never saved |
| Thumbnails.GenerateAndSaveImageSavesThumbnail | ThumbnailGenerator/ThumbnailTool.cs:42-46 | Corrected, the Image overload never uses a disposed image. It saves a bitmap drawn from its input, of the rule's size, min(width, maxWidth) wide |
| Counters.Wrap | ThumbnailGenerator/ThreadCounter.cs:45-53 | Unchecked int arithmetic: the identity inside the Int32 range, and always congruent to the exact value modulo 2^32 |
| Counters.AddThenSubtract | ThumbnailGenerator/ThreadCounter.cs:41-55 | Adding n and then subtracting n with wrap-around gives back the starting value |
| Counters.ThreadCounter.constructor | ThumbnailGenerator/ThreadCounter.cs:9-13 | A new counter has Count 0 |
| Counters.ThreadCounter.Increase | ThumbnailGenerator/ThreadCounter.cs:41-47 | Count becomes old Count + num wrapped to 32 bits, which is exactly old + num when that fits. Nothing else changes |
| Counters.ThreadCounter.Reduce | ThumbnailGenerator/ThreadCounter.cs:49-55 | Count becomes old Count - num wrapped to 32 bits, with no lower bound, so it may go negative. Nothing else changes |
| Counters.ThreadCounter.Reset | ThumbnailGenerator/ThreadCounter.cs:56-62 | Count becomes 0, whatever it was, so a second Reset changes nothing |
| Counters.IncreaseThenReduce | ThumbnailGenerator/ThreadCounter.cs:41-55 | Increase(n) followed by Reduce(n) restores Count |
| Counters.ThreadCounterStatics.constructor | ThumbnailGenerator/ThreadCounter.cs:25 | The static instance starts out null |
| Counters.ThreadCounterStatics.Instance | ThumbnailGenerator/ThreadCounter.cs:29-39 | It returns the existing instance when there is one. Otherwise it creates, stores and returns a fresh counter at 0 |
| Counters.InstanceIsShared | ThumbnailGenerator/ThreadCounter.cs:29-39 | Two sequential accesses to Instance return the same object, the stored one |
| Items.ImageItem.constructor | ThumbnailGenerator/ImageItem.cs:18-22 | The given file and state are stored unchanged |
| Items.ImageItem.SetFile | ThumbnailGenerator/ImageItem.cs:24 | File becomes f, and State is unchanged |
| Items.ImageItem.SetState | ThumbnailGenerator/ImageItem.cs:25-36 | State becomes s, and File is unchanged |
| Window.Contains | ThumbnailGenerator/MainWindow.xaml.cs:108 | It is true exactly when t occurs in s at some index |
| Window.IsStaticImage | ThumbnailGenerator/MainWindow.xaml.cs:106-113 | It is true exactly when the MIME type contains "image" and does not contain "gif" |
| Window.IsStaticImageExamples | ThumbnailGenerator/MainWindow.xaml.cs:106-113 | image/png and image/jpeg are static images; image/gif and text/plain are not |
| Window.IsNullOrWhiteSpace | ThumbnailGenerator/MainWindow.xaml.cs:117-126 | String.IsNullOrWhiteSpace over the Unicode white-space characters. NullOrWhiteSpaceIffTrimsToEmpty ties it to trimming, and IsNullOrWhiteSpaceExamples gives instances |
| Window.TrimStart | ThumbnailGenerator/MainWindow.xaml.cs:117-126 | Trimming never lengthens the text |
| Window.AllWhiteSpaceIffTrimsToEmpty | ThumbnailGenerator/MainWindow.xaml.cs:117-126 | A text is all white space exactly when trimming its start leaves nothing |
| Window.NullOrWhiteSpaceIffTrimsToEmpty | ThumbnailGenerator/MainWindow.xaml.cs:117-126 | A text box is rejected exactly when its text is null or trims to the empty string, the documented equivalent of IsNullOrWhiteSpace |
| Window.IsNullOrWhiteSpaceExamples | ThumbnailGenerator/MainWindow.xaml.cs:117-126 | Null, "" and blank texts are rejected; "out" and " 120 " are accepted |
| Window.StaticImages | ThumbnailGenerator/MainWindow.xaml.cs:72-73 | The Where keeps at most the folder's files. StaticImagesAppend shows that it keeps their order, and StaticImagesSelects gives what it keeps |
| Window.StaticImagesAppend | ThumbnailGenerator/MainWindow.xaml.cs:72-73 | Filtering a concatenation is concatenating the filtered parts, so the Where keeps the folder's order |
| Window.StaticImagesWrittenAt | ThumbnailGenerator/MainWindow.xaml.cs:72-74 | Filtering, then picking the files written at time t, gives the same list as picking them first and then filtering |
| Window.StaticImagesSelects | ThumbnailGenerator/MainWindow.xaml.cs:72-73 | The Where keeps each static image as many times as the folder lists it, and keeps nothing else |
| Window.InsertByTime | ThumbnailGenerator/MainWindow.xaml.cs:74 | Inserting adds one element, and the result starts with x or with the old first element |
| Window.InsertByTimePermutes | ThumbnailGenerator/MainWindow.xaml.cs:74 | Inserting adds exactly x to the multiset of files |
| Window.InsertByTimeSorted | ThumbnailGenerator/MainWindow.xaml.cs:74 | Inserting into a list sorted by write time keeps it sorted |
| Window.InsertByTimeWrittenAt | ThumbnailGenerator/MainWindow.xaml.cs:74 | Among files with x's write time, x goes first; other files keep their relative order |
| Window.SortByTime | ThumbnailGenerator/MainWindow.xaml.cs:74 | The OrderBy keeps the length |
| Window.SortByTimeSorted | ThumbnailGenerator/MainWindow.xaml.cs:74 | The OrderBy's result is ordered by write time |
| Window.SortByTimePermutes | ThumbnailGenerator/MainWindow.xaml.cs:74 | The OrderBy's result is a permutation of its input |
| Window.SortByTimeStable | ThumbnailGenerator/MainWindow.xaml.cs:74 | The OrderBy is stable: files written at the same time keep their input order |
| Window.ListImages | ThumbnailGenerator/MainWindow.xaml.cs:72-76 | The list never holds more files than the folder. ListImagesSpec gives its order and contents |
| Window.ListImagesSpec | ThumbnailGenerator/MainWindow.xaml.cs:72-76 | The listed files are sorted by write time. They are exactly the folder's static images, with multiplicity. The files written at any one time t are exactly the folder's static images written at t, in folder order |
| Window.CombineJoins | ThumbnailGenerator/MainWindow.xaml.cs:152 | Path.Combine(dir, name) ends with name. An empty name gives dir; an empty dir or a rooted name gives name. Otherwise dir is a prefix, and a backslash is inserted only when dir does not end in a separator |
| Window.Combine | ThumbnailGenerator/MainWindow.xaml.cs:152 | Path.Combine(dir, name) always ends with name. CombineJoins gives each case, and CombineKeepsFileName gives the inverse |
| Window.FileName | ThumbnailGenerator/MainWindow.xaml.cs:152 | Path.GetFileName returns a suffix of the path |
| Window.FileNameAfterSeparator | ThumbnailGenerator/MainWindow.xaml.cs:152 | A separator-free name after a separator, or after nothing, is exactly the file name |
| Window.CombineKeepsFileName | ThumbnailGenerator/MainWindow.xaml.cs:152 | The file name of Combine(outputDir, name) is name for any non-empty name without separators, so every thumbnail keeps its source's file name |
| Window.Succeeds | ThumbnailGenerator/MainWindow.xaml.cs:152 | The closed-form condition under which an item's generate call returns normally. SucceedsIffGenerateAndSaveReturns proves it equal to the path overload's normal return |
| Window.Failures | ThumbnailGenerator/MainWindow.xaml.cs:135-170 | At most one failure per job |
| Window.NoFailuresIffAllSucceed | ThumbnailGenerator/MainWindow.xaml.cs:170 | There are no failures exactly when every job's GenerateAndSaveAsync returns normally |
| Window.SucceedsIffGenerateAndSaveReturns | ThumbnailGenerator/MainWindow.xaml.cs:152 | The closed-form success condition of a job is exactly the normal return of the path overload of GenerateAndSaveAsync on its arguments |
| Window.NewPendingItems | ThumbnailGenerator/MainWindow.xaml.cs:75-76 | There is one fresh, distinct item per file, in order, each holding its file and Pending |
| Window.MainWindow.constructor | ThumbnailGenerator/MainWindow.xaml.cs:24-61 | Counter is ThreadCounter.Instance: the stored instance, or a fresh one at Count 0, stored on first access. The window starts with ThreadNum 0, ThumbnailMaxWidth 120, no tasks, no items and progress 0 |
| Window.MainWindow.SetThumbnailMaxWidth | ThumbnailGenerator/MainWindow.xaml.cs:41-52 | ThumbnailMaxWidth becomes the new value, which every later run resizes to, and nothing else changes |
| Window.MainWindow.SelectSource | ThumbnailGenerator/MainWindow.xaml.cs:63-82 | With no existing folder chosen, nothing changes. Otherwise the list holds one fresh, distinct Pending item per listed file, in listing order, so sorted by write time. Start is enabled, progress is 0, and everything else is unchanged |
| Window.MainWindow.ProcessItem | ThumbnailGenerator/MainWindow.xaml.cs:137-168 | It appends the item's task, with output path Combine(outputDir, name). The item ends Solved exactly when generation returns, and otherwise stays Processing. ThreadNum ends +0 on success and +1 on failure. Progress advances one step only on success. Nothing else changes |
| Window.MainWindow.ProcessNext | ThumbnailGenerator/MainWindow.xaml.cs:135-169 | Item i gets its task and the earlier items keep theirs, with the same per-item outcome as ProcessItem |
| Window.MainWindow.ProcessAll | ThumbnailGenerator/MainWindow.xaml.cs:135-170 | Every item, in list order, gets one task, and its final state is Solved or Processing according to its own success. ThreadNum rises by the number of failures. Progress rises by the number of successes. The run is faulted exactly when some item failed |
| Window.MainWindow.Generate | ThumbnailGenerator/MainWindow.xaml.cs:127-175 | It resets the counter to 0, clears the tasks and disables all four controls before the loop. A completed run leaves every item Solved, ThreadNum at its pre-run value, progress at exactly 100, and everything but Start re-enabled. A faulted run leaves progress at its partial value and every control disabled |
| Window.MainWindow.Start | ThumbnailGenerator/MainWindow.xaml.cs:115-176 | A null or whitespace destination text returns first, and then a null or whitespace max-width text returns. Both leave the window, the counter and every item unchanged. Otherwise the counter is 0 and every item has one task with the destination text as output folder. Each item ends Solved or Processing according to its own success, and ThreadNum rises by the number of failures. The run completes exactly when there are no failures, and then every item is Solved, ThreadNum is restored, progress is exactly 100 and everything but Start is re-enabled. A faulted run leaves progress at its partial value and every control disabled |

## Left out

- The float arithmetic of ResizeAsync: `(float)maxWidth / width * height` is modelled as the exact integer floor. `ThumbnailHeightIsTruncatedRatio` ties it to the exact real quotient. Single-precision rounding is not modelled. It can make the height one less than the model's, and so also change when `ResizeImage` throws. For example, a 41x41 image with maxWidth 1 computes 0.99999994, truncated to 0, so `new Bitmap(1, 0)` throws where the model returns 1x1. A 138x69 image with maxWidth 120 gets height 59 where the model gives 60.
- Thumbnails.ThumbnailSize: requires maxWidth > 0. The case maxWidth <= 0 is handled by `ResizeImage`, which throws as `new Bitmap` does.
- The progress increment `100f / lvImages.Items.Count` and the ProgressBar's clamping of its value: progress is an integer count of solved items (`progressSteps`) plus the exact value 100 assigned at the end.
- Concurrency (Task.Run, Dispatcher.InvokeAsync, `lock`, Task.WhenAll): the per-item tasks run one after another in list order, each to completion. Interleavings, and the order in which dispatched updates land, are not modelled.
- The fire-and-forget `SaveAndReleaseAsync`: a `Save` step records the call. Whether the file is written, and the disposal of the saved image afterwards, are not modelled. A `Save` that throws inside the `async void` SaveAndReleaseAsync (ThumbnailTool.cs:73-80) is not modelled either. It runs inside the item's `Task.Run` (MainWindow.xaml.cs:137), where there is no synchronization context, so by .NET's documented behaviour the exception is rethrown unhandled on the thread pool and ends the process. The model's `Completed` outcome does not see this. The as-written Image overload saving its disposed input would be one such case.
- The Stream overloads of GenerateAsync/GenerateAndSaveAsync: they differ from the path overloads only in `Image.FromStream`, which is not part of this model.
- Pixels, interpolation, `Graphics.DrawImage` and image formats: an image is its size and origin.
- `MimeMapping.GetMimeMapping`: taken as the parameter `mimeOf` from file name to MIME type.
- `SelectDirectory`, `Directory.Exists`, `DirectoryInfo.GetFiles` and `btnDestDir_Click`: the chosen folder's listing is a parameter (None when no existing folder was chosen). The text boxes are parameters of Start.
- The text of `tbSrcDir`: SelectSource does not record it.
- The MessageBox dialogs: they are the `Outcome` values.
- INotifyPropertyChanged, PropertyChanged and OnPropertyChanged: these notify the UI and change no modelled state. The field writes of the ThreadNum and ThumbnailMaxWidth setters are modelled. The ThumbnailMaxWidth setter is `SetThumbnailMaxWidth`.
- The XAML binding from `tbThumbnailMaxWidth.Text` to ThumbnailMaxWidth, and its text-to-int conversion, are not part of this model. Start checks the text only with IsNullOrWhiteSpace, as the handler does, and runs at whatever `thumbnailMaxWidth` holds.
- Image.FromFile is abstracted by `Load` over the `files` map: a path decodes exactly when the map holds a positive size there. Decoding, file formats and I/O errors are not modelled.
- ThreadNum is an unbounded integer. It moves by one per item and cannot reach the 32-bit limit for any listable folder.
- The initial IsEnabled values of the four controls come from the XAML layout, which is not part of this model. They are a constructor parameter.
- The invalid-character check of Path.Combine, which throws on characters invalid in paths.
- An exception escaping the async void handler after a faulted run: the model ends the run as `Faulted` and does not model what the dispatcher does with it.

## Findings

| source | as written | input that shows it | evidently intended | confidence | as-written member | corrected member |
|---|---|---|---|---|---|---|
| ThumbnailGenerator/ThumbnailTool.cs:42-46 | `GenerateAndSaveAsync(Image, int, string)` computes `thumbnail` and then saves `img`, which `GenerateAsync` has already disposed | any decodable image, e.g. 4000x3000 with maxWidth 1000: Save is called on the input after it was disposed, and the 1000x750 thumbnail is never saved or disposed | save the thumbnail, as the path and stream overloads do | high (not executed) | Thumbnails.GenerateAndSaveImageAsWrittenSavesDisposed | Thumbnails.GenerateAndSaveImageSavesThumbnail |
